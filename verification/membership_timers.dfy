/** Suspicion timers and push/pull merges. */
module MembershipTimers {
  import opened Membership
  import opened MembershipProofs
  import MembershipSelf

  /** No state change is stamped in the future. */
  ghost predicate StampsPast(s: State) {
    0 < s.clock && forall n :: n in s.table ==> s.table[n].stamp < s.clock
  }

  lemma AliveKeepsStampsPast(s: State, a: AliveMsg, bootstrap: bool, random: nat)
    requires StampsPast(s)
    ensures var s' := AliveNode(s, a, bootstrap, random); StampsPast(s') && s.clock <= s'.clock
  {
  }

  lemma StepKeepsStampsPast(s: State, e: Event)
    requires StampsPast(s) && Enabled(s, e)
    ensures StampsPast(Step(s, e)) && s.clock <= Step(s, e).clock
  {
    match e
    case Receive(a, random) => AliveKeepsStampsPast(s, a, false, random);
    case Update(i) =>
      AliveKeepsStampsPast(s.(updates := s.updates[..i] + s.updates[i + 1..]), s.updates[i], true, 0);
    case _ => OthersKeepStampsPast(s, e);
  }

  lemma OthersKeepStampsPast(s: State, e: Event)
    requires StampsPast(s) && Enabled(s, e) && !e.Receive? && !e.Update?
    ensures StampsPast(Step(s, e)) && s.clock <= Step(s, e).clock
  {
  }

  lemma {:induction false} RunKeepsStampsPast(states: seq<State>, events: seq<Event>, k: nat)
    requires Run(states, events) && k < |states|
    ensures StampsPast(states[k])
  {
    if k != 0 {
      RunKeepsStampsPast(states, events, k - 1);
      StepKeepsStampsPast(states[k - 1], events[k - 1]);
    }
  }

  /** A suspicion with this stamp is over and can never be current again. */
  ghost predicate Over(s: State, t: Timer) {
    t.stamp < s.clock && !Current(s, t)
  }

  lemma AliveKeepsOver(s: State, a: AliveMsg, bootstrap: bool, random: nat, t: Timer)
    requires Over(s, t)
    ensures Over(AliveNode(s, a, bootstrap, random), t)
  {
  }

  lemma StepKeepsOver(s: State, e: Event, t: Timer)
    requires Over(s, t) && Enabled(s, e)
    ensures Over(Step(s, e), t)
  {
    match e
    case Receive(a, random) => AliveKeepsOver(s, a, false, random, t);
    case Update(i) => AliveKeepsOver(s.(updates := s.updates[..i] + s.updates[i + 1..]), s.updates[i], true, 0, t);
    case _ => OthersKeepOver(s, e, t);
  }

  lemma OthersKeepOver(s: State, e: Event, t: Timer)
    requires Over(s, t) && Enabled(s, e) && !e.Receive? && !e.Update?
    ensures Over(Step(s, e), t)
  {
  }

  /** A step leaves a current suspicion's entry untouched or ends the suspicion. */
  ghost predicate KeptOrOver(s: State, s': State, t: Timer)
    requires t.node in s.table
  {
    && t.stamp < s'.clock
    && (Over(s', t) || (Current(s', t) && s'.table[t.node] == s.table[t.node]))
  }

  lemma AliveKeepsOrEnds(s: State, a: AliveMsg, bootstrap: bool, random: nat, t: Timer)
    requires Current(s, t) && t.stamp < s.clock && t.node != s.self
    ensures KeptOrOver(s, AliveNode(s, a, bootstrap, random), t)
  {
  }

  lemma StepKeepsOrEnds(s: State, e: Event, t: Timer)
    requires Current(s, t) && t.stamp < s.clock && Enabled(s, e) && t.node != s.self
    ensures KeptOrOver(s, Step(s, e), t)
  {
    match e
    case Receive(a, random) => AliveKeepsOrEnds(s, a, false, random, t);
    case Update(i) =>
      AliveKeepsOrEnds(s.(updates := s.updates[..i] + s.updates[i + 1..]), s.updates[i], true, 0, t);
    case _ => OthersKeepOrEnd(s, e, t);
  }

  lemma OthersKeepOrEnd(s: State, e: Event, t: Timer)
    requires Current(s, t) && t.stamp < s.clock && Enabled(s, e) && t.node != s.self && !e.Receive? && !e.Update?
    ensures KeptOrOver(s, Step(s, e), t)
  {
  }

  /** The entry has been exactly this one in every state from i to j. */
  ghost predicate Unchanged(states: seq<State>, n: string, e: Entry, i: nat, j: nat)
    requires i <= j < |states|
  {
    forall k :: i <= k <= j ==> n in states[k].table && states[k].table[n] == e
  }

  lemma {:induction false} CurrentIffUnchanged(states: seq<State>, events: seq<Event>, t: Timer, i: nat, j: nat)
    requires Trace(states, events) && i <= j < |states| && OwnUpdates(states[i])
    requires Current(states[i], t) && t.stamp < states[i].clock && t.node != states[i].self
    ensures t.stamp < states[j].clock
    ensures Current(states[j], t) <==> Unchanged(states, t.node, states[i].table[t.node], i, j)
    decreases j
  {
    if i < j {
      var k := j - 1;
      CurrentIffUnchanged(states, events, t, i, k);
      TraceKeepsOwnUpdates(states, events, i, k);
      CurrentAfter(states[k], events[k], t, states[j]);
      assert Unchanged(states, t.node, states[i].table[t.node], i, j) <==>
        && Unchanged(states, t.node, states[i].table[t.node], i, k)
        && t.node in states[j].table && states[j].table[t.node] == states[i].table[t.node];
    }
  }

  lemma CurrentAfter(s: State, e: Event, t: Timer, s': State)
    requires t.stamp < s.clock && OwnUpdates(s) && t.node != s.self && Enabled(s, e) && s' == Step(s, e)
    ensures t.stamp < s'.clock
    ensures Current(s', t) <==> Current(s, t) && t.node in s'.table && s'.table[t.node] == s.table[t.node]
  {
    if Current(s, t) {
      StepKeepsOrEnds(s, e, t);
    } else {
      StepKeepsOver(s, e, t);
    }
  }

  /** The suspicion that a suspect message starts, and the timer it arms. */
  predicate Arms(s: State, e: Event, t: Timer)
    requires Enabled(s, e)
  {
    && e.Suspected? && e.c.node == t.node && t.node != s.self && t.stamp == s.clock
    && t !in s.timers && t in Step(s, e).timers
  }

  lemma ArmedIsCurrent(s: State, e: Event, t: Timer)
    requires Enabled(s, e) && Arms(s, e, t)
    ensures Current(Step(s, e), t) && t.stamp < Step(s, e).clock
    ensures Step(s, e).table[t.node].inc == e.c.inc
  {
  }

  /** A timer armed at step i and firing at step j makes its node dead exactly when the suspicion that armed it
      has stood unchanged ever since, and then with the suspected incarnation. A timer left over from
      a refuted, renewed or reaped suspicion changes nothing but the set of timers. */
  lemma {:induction false} TimersArePrecise(states: seq<State>, events: seq<Event>, t: Timer, i: nat, j: nat)
    requires Run(states, events) && i < j < |events|
    requires Arms(states[i], events[i], t) && events[j] == Fired(t)
    ensures t.node in states[i + 1].table
    ensures var suspicion := states[i + 1].table[t.node];
      if Unchanged(states, t.node, suspicion, i + 1, j) then
        && t.node in states[j + 1].table
        && states[j + 1].table[t.node] == suspicion.(status := Dead, stamp := states[j].clock)
        && states[j + 1].log == states[j].log + [DeadB(Claim(suspicion.inc, t.node, states[j].self))]
      else
        states[j + 1] == states[j].(timers := states[j].timers - {t})
  {
    ArmedIsCurrent(states[i], events[i], t);
    assert states[i + 1] == Step(states[i], events[i]);
    TraceKeepsOwnUpdates(states, events, 0, i + 1);
    TraceKeepsOwnUpdates(states, events, 0, i);
    TraceKeepsOwnUpdates(states, events, i + 1, j);
    CurrentIffUnchanged(states, events, t, i + 1, j);
    FiringKillsIffCurrent(states[j], t, states[j + 1]);
  }

  lemma FiringKillsIffCurrent(s: State, t: Timer, s': State)
    requires Enabled(s, Fired(t)) && s' == Step(s, Fired(t)) && t.node != s.self
    ensures if Current(s, t) then
        && t.node in s'.table
        && s'.table[t.node] == s.table[t.node].(status := Dead, stamp := s.clock)
        && s'.log == s.log + [DeadB(Claim(s.table[t.node].inc, t.node, s.self))]
      else s' == s.(timers := s.timers - {t})
  {
  }

  // ----- Push/pull

  /** The message that a record of a push/pull exchange stands for. */
  function MergeEvent(self: string, r: Remote, random: nat): Event {
    if r.status == Alive then Receive(AliveMsg(r.inc, r.name, r.addr, r.port, r.meta, r.vsn), random)
    else Suspected(Claim(r.inc, r.name, self))
  }

  /** The messages for the records in front, as far as they are handled. */
  ghost predicate Messages(self: string, remote: seq<Remote>, random: nat -> nat, events: seq<Event>) {
    |events| <= |remote|
    && forall i :: 0 <= i < |events| ==> events[i] == MergeEvent(self, remote[i], random(|remote| - i))
  }

  lemma {:induction false} MessagesPrepend(self: string, remote: seq<Remote>, random: nat -> nat, events: seq<Event>)
    requires remote != [] && Messages(self, remote[1..], random, events)
    ensures Messages(self, remote, random, [MergeEvent(self, remote[0], random(|remote|))] + events)
  {
    var all := [MergeEvent(self, remote[0], random(|remote|))] + events;
    forall i | 0 <= i < |all| ensures all[i] == MergeEvent(self, remote[i], random(|remote| - i)) {
      if i > 0 {
        var k := i - 1;
        assert all[i] == events[k] && remote[i] == remote[1..][k] && |remote[1..]| - k == |remote| - i;
      }
    }
  }

  lemma {:induction false} MergeOneIsAStep(s: State, remote: seq<Remote>, random: nat -> nat, e: Event)
    requires remote != [] && s.mode == Running && e == MergeEvent(s.self, remote[0], random(|remote|))
    ensures Enabled(s, e) && (e.Receive? || e.Suspected?)
    ensures MergeState(s, remote, random) == MergeState(Step(s, e), remote[1..], random)
  {
  }

  /** A merge is a sequence of ordinary steps, one for each record until the node hangs or crashes. */
  lemma {:induction false} MergeIsTrace(s: State, remote: seq<Remote>, random: nat -> nat)
    returns (states: seq<State>, events: seq<Event>)
    ensures Trace(states, events) && Messages(s.self, remote, random, events)
    ensures states[0] == s && states[|events|] == MergeState(s, remote, random)
    ensures |events| < |remote| ==> states[|events|].mode != Running
    decreases |remote|
  {
    if remote == [] || s.mode != Running {
      states, events := [s], [];
    } else {
      var e := MergeEvent(s.self, remote[0], random(|remote|));
      MergeOneIsAStep(s, remote, random, e);
      MergeStepKeepsSelf(s, e);
      states, events := MergeIsTrace(Step(s, e), remote[1..], random);
      MessagesPrepend(s.self, remote, random, events);
      states, events := Preceded(s, e, states, events);
    }
  }

  lemma MergeStepKeepsSelf(s: State, e: Event)
    requires Enabled(s, e) && (e.Receive? || e.Suspected?)
    ensures Step(s, e).self == s.self
  {
    if e.Receive? {
      AliveFrame(s, e.a, false, e.random);
    }
  }

  /** So what holds in every run holds after merges too. */
  lemma {:induction false} RunThenMerge(states: seq<State>, events: seq<Event>, remote: seq<Remote>, random: nat -> nat)
    returns (all: seq<State>, es: seq<Event>)
    requires Run(states, events)
    ensures Run(all, es) && states <= all && events <= es
    ensures all[|es|] == MergeState(states[|events|], remote, random)
  {
    var more, es' := MergeIsTrace(states[|events|], remote, random);
    TraceJoin(states, events, more, es');
    all, es := states + more[1..], events + es';
  }

  lemma MergeOneNeverKills(s: State, r: Remote, random: nat, n: string)
    requires n in s.table && s.table[n].status != Dead
    ensures var s' := MergeOne(s, r, random); n in s'.table && s'.table[n].status != Dead
  {
  }

  /** Merging any remote state never makes a node dead that was not. */
  lemma {:induction false} MergeNeverKills(s: State, remote: seq<Remote>, random: nat -> nat, n: string)
    requires n in s.table && s.table[n].status != Dead
    ensures n in MergeState(s, remote, random).table && MergeState(s, remote, random).table[n].status != Dead
    decreases |remote|
  {
    if remote != [] && s.mode == Running {
      MergeOneNeverKills(s, remote[0], random(|remote|), n);
      MergeNeverKills(MergeOne(s, remote[0], random(|remote|)), remote[1..], random, n);
    }
  }

  /** What sendLocalState writes about a node. */
  function Exported(n: string, e: Entry): Remote {
    Remote(n, e.addr, e.port, e.meta, e.inc, e.status, e.vsn)
  }

  function Snapshot(s: State, order: seq<string>): seq<Remote>
    requires forall n :: n in order ==> n in s.table
  {
    if order == [] then [] else [Exported(order[0], s.table[order[0]])] + Snapshot(s, order[1..])
  }

  /** A snapshot has one record for each name in the list, in its order, with all that the entry says. */
  lemma {:induction false} SnapshotAt(s: State, order: seq<string>, i: nat)
    requires (forall n :: n in order ==> n in s.table) && i < |order|
    ensures |Snapshot(s, order)| == |order|
    ensures var n, e := order[i], s.table[order[i]];
      Snapshot(s, order)[i] == Remote(n, e.addr, e.port, e.meta, e.inc, e.status, e.vsn)
    decreases |order|
  {
    if i > 0 {
      SnapshotAt(s, order[1..], i - 1);
    } else if |order| > 1 {
      SnapshotAt(s, order[1..], 0);
    }
  }

  /** The receiver replaces a missing port by its own. */
  function Received(r: Remote, bindPort: nat, oldProtocol: bool): Remote {
    if oldProtocol || r.port == 0 then r.(port := bindPort) else r
  }

  function AllReceived(remote: seq<Remote>, bindPort: nat, oldProtocol: bool): seq<Remote> {
    if remote == [] then []
    else [Received(remote[0], bindPort, oldProtocol)] + AllReceived(remote[1..], bindPort, oldProtocol)
  }

  /** A record of this entry or of one it was raised from, with the sender's port or another. */
  ghost predicate NotNews(s: State, r: Remote) {
    r.name in s.table
    && exists e: Entry {:trigger Exported(r.name, e)} :: r == Exported(r.name, e).(port := r.port) &&
         if r.name == s.self then e == s.table[r.name] && (e.status == Alive || e.status == Dead)
         else KeptOrRaised(e, s.table[r.name])
  }

  lemma NotNewsIsIgnored(s: State, r: Remote, random: nat)
    requires NotNews(s, r)
    ensures MergeOne(s, r, random) == s
  {
  }

  lemma {:induction false} MergeIgnoresNotNews(s: State, remote: seq<Remote>, random: nat -> nat)
    requires forall r :: r in remote ==> NotNews(s, r)
    ensures MergeState(s, remote, random) == s
    decreases |remote|
  {
    if remote != [] && s.mode == Running {
      NotNewsIsIgnored(s, remote[0], random(|remote|));
      MergeIgnoresNotNews(s, remote[1..], random);
    }
  }

  lemma {:induction false} SnapshotRecords(s: State, order: seq<string>, bindPort: nat, oldProtocol: bool)
    requires forall n :: n in order ==> n in s.table
    ensures forall r :: r in AllReceived(Snapshot(s, order), bindPort, oldProtocol) ==>
      r.name in order && r == Exported(r.name, s.table[r.name]).(port := r.port)
  {
    if order != [] {
      assert forall n :: n in order[1..] ==> n in order;
      SnapshotRecords(s, order[1..], bindPort, oldProtocol);
      assert Snapshot(s, order)[1..] == Snapshot(s, order[1..]);
    }
  }

  /** A node that merges its own snapshot changes nothing: no entry, no incarnation, no broadcast. */
  lemma {:induction false} OwnSnapshotIsIgnored(states: seq<State>, events: seq<Event>, k: nat,
                             bindPort: nat, oldProtocol: bool, random: nat -> nat)
    requires Run(states, events) && k < |states|
    ensures forall n :: n in states[k].order ==> n in states[k].table
    ensures MergeState(states[k], AllReceived(Snapshot(states[k], states[k].order), bindPort, oldProtocol), random)
         == states[k]
  {
    var s := states[k];
    RunKeepsIndexed(states, events, k);
    MembershipSelf.RunKeepsLocalOk(states, events, k);
    SnapshotRecords(s, s.order, bindPort, oldProtocol);
    forall r | r in AllReceived(Snapshot(s, s.order), bindPort, oldProtocol) ensures NotNews(s, r) {
      assert r == Exported(r.name, s.table[r.name]).(port := r.port);
    }
    MergeIgnoresNotNews(s, AllReceived(Snapshot(s, s.order), bindPort, oldProtocol), random);
  }

  /** Neither does an old snapshot: what a node exported about a remote peer at any earlier time is
      ignored for as long as the peer stays in the table. */
  lemma {:induction false} StaleRecordIsIgnored(states: seq<State>, events: seq<Event>, n: string, i: nat, j: nat,
      port: nat, random: nat)
    requires Run(states, events) && i <= j < |states|
    requires n != states[i].self && Stays(states, n, i, j)
    ensures MergeOne(states[j], Exported(n, states[i].table[n]).(port := port), random) == states[j]
  {
    TraceKeepsOwnUpdates(states, events, 0, i);
    TraceKeepsOwnUpdates(states, events, 0, j);
    TraceKeepsOwnUpdates(states, events, i, j);
    TraceRaises(states, events, n, i, j);
    var e := states[i].table[n];
    var r := Exported(n, e).(port := port);
    assert r == Exported(r.name, e).(port := r.port);
    NotNewsIsIgnored(states[j], r, random);
  }
}
