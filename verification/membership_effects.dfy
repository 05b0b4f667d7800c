/** What messages leave behind: which entry they change, what it says afterwards, and what is passed on. */
module MembershipEffects {
  import opened Bytes
  import opened Wrappers
  import opened Membership
  import opened MembershipProofs
  import opened MembershipSelf

  /** The alive message that a step takes over: one about a peer, or one of the node's own pending updates. */
  function Told(s: State, e: Event): Option<AliveMsg>
    requires Enabled(s, e)
  {
    if !Accepts(s, e) then None
    else
      match e
      case Receive(a, _) => if a.node == s.self then None else Some(a)
      case Update(i) => Some(s.updates[i])
      case _ => None
  }

  /** An accepted alive message is stored in full, whoever it is about, and passed on as it is. */
  lemma ToldIsStored(s: State, e: Event, a: AliveMsg)
    requires OwnUpdates(s) && Enabled(s, e) && Told(s, e) == Some(a) && Step(s, e).mode == Running
    ensures a.node in Step(s, e).table
    ensures var now := Step(s, e).table[a.node];
      && now.addr == a.addr && now.port == a.port && now.meta == a.meta
      && now.inc == a.inc && now.status == Alive
      && now.vsn == (if a.vsn != [] then a.vsn[..6] else if a.node in s.table then s.table[a.node].vsn
                     else [0, 0, 0, 0, 0, 0])
      && now.stamp == (if a.node in s.table && s.table[a.node].status == Alive then s.table[a.node].stamp
                       else s.clock)
    ensures var s' := Step(s, e);
      s'.log == s.log + [AliveB(a)] && s'.counter == s.counter && s'.timers == s.timers
  {
    match e
    case Receive(m, random) => AliveIsStored(s, a, false, random);
    case Update(i) =>
      assert s.updates[i] in s.updates;
      AliveIsStored(s.(updates := s.updates[..i] + s.updates[i + 1..]), a, true, 0);
  }

  lemma AliveIsStored(s: State, a: AliveMsg, bootstrap: bool, random: nat)
    requires bootstrap || a.node != s.self
    requires AliveNode(s, a, bootstrap, random).log != s.log && AliveNode(s, a, bootstrap, random).mode == Running
    requires s.mode == Running
    ensures a.node in AliveNode(s, a, bootstrap, random).table
    ensures var now := AliveNode(s, a, bootstrap, random).table[a.node];
      && now.addr == a.addr && now.port == a.port && now.meta == a.meta
      && now.inc == a.inc && now.status == Alive
      && now.vsn == (if a.vsn != [] then a.vsn[..6] else if a.node in s.table then s.table[a.node].vsn
                     else [0, 0, 0, 0, 0, 0])
      && now.stamp == (if a.node in s.table && s.table[a.node].status == Alive then s.table[a.node].stamp
                       else s.clock)
    ensures var s' := AliveNode(s, a, bootstrap, random);
      s'.log == s.log + [AliveB(a)] && s'.counter == s.counter && s'.timers == s.timers
  {
  }

  /** Everything accepted about a peer is stored and passed on as it came: alive, suspect and dead messages. */
  lemma AcceptedIsStored(s: State, e: Event)
    requires OwnUpdates(s) && Enabled(s, e) && IsMessage(e) && Subject(e) != s.self
    requires Accepts(s, e) && Step(s, e).mode == Running
    ensures Subject(e) in Step(s, e).table
    ensures var s', now := Step(s, e), Step(s, e).table[Subject(e)];
      match e
      case Receive(a, _) =>
        && now.addr == a.addr && now.port == a.port && now.meta == a.meta && now.inc == a.inc && now.status == Alive
        && (a.vsn != [] ==> now.vsn == a.vsn[..6])
        && s'.log == s.log + [AliveB(a)] && s'.timers == s.timers
      case Suspected(c) =>
        && c.node in s.table && now == s.table[c.node].(inc := c.inc, status := Suspect, stamp := s.clock)
        && s'.log == s.log + [SuspectB(c)] && s'.timers == s.timers + {Timer(c.node, s.clock)}
      case Died(c) =>
        && c.node in s.table && now == s.table[c.node].(inc := c.inc, status := Dead, stamp := s.clock)
        && s'.log == s.log + [DeadB(c)] && s'.timers == s.timers
      case _ => false
  {
    if e.Receive? {
      ToldIsStored(s, e, e.a);
    }
  }

  /** The node's own dead message, once it is leaving. */
  lemma DepartureIsStored(s: State)
    requires OwnUpdates(s) && Enabled(s, Left) && s.self in s.table
    requires s.table[s.self].status != Dead && s.table[s.self].inc <= s.departing.value.inc
    ensures Step(s, Left).table == s.table[s.self :=
      s.table[s.self].(inc := s.departing.value.inc, status := Dead, stamp := s.clock)]
    ensures Step(s, Left).log == s.log + [DeadB(s.departing.value)]
  {
  }

  /** A refutation changes nothing but the local incarnation, to one more than the larger of counter and claim unless
      the counter wraps, and announces the local entry with it. */
  lemma RefutationIsStored(s: State, e: Event)
    requires LocalOk(s) && Enabled(s, e) && IsMessage(e) && Subject(e) == s.self && Accepts(s, e)
    requires e.Died? ==> !s.leave
    ensures s.self in s.table && Step(s, e).mode == Running
    ensures var s', mine, claim := Step(s, e), s.table[s.self], ClaimedInc(e);
      && s'.counter == (if claim < s.counter < Max32 then s.counter + 1 else claim + 1)
      && s'.table == s.table[s.self := mine.(inc := s'.counter)]
      && s'.log == s.log + [AliveB(AliveMsg(s'.counter, s.self, mine.addr, mine.port, mine.meta, mine.vsn))]
      && s'.timers == s.timers && s'.order == s.order
  {
  }

  /** When an update of the node's own data takes effect. */
  lemma UpdateAcceptedIff(s: State, i: nat)
    requires OwnUpdates(s) && Enabled(s, Update(i)) && s.self in s.table
    ensures var u, mine := s.updates[i], s.table[s.self];
      Accepts(s, Update(i)) <==> !s.leave && mine.addr == u.addr && mine.port == u.port && mine.inc <= u.inc
  {
    assert s.updates[i] in s.updates;
    assert (s.log + [AliveB(s.updates[i])])[|s.log|] == AliveB(s.updates[i]);
  }

  /** What a node says about itself first. */
  lemma FirstEntryIs(self: string, addr: seq<byte>, port: nat, meta: seq<byte>, vsn: seq<byte>)
    requires |vsn| == 6
    ensures var s := SetAlive(self, addr, port, meta, vsn);
      && s.table == map[self := Entry(addr, port, meta, vsn, 1, Alive, 1)]
      && s.log == [AliveB(AliveMsg(1, self, addr, port, meta, vsn))] && s.counter == 1
  {
    assert vsn[..6] == vsn;
  }

  /** UpdateNode takes the next number for the new data at the node's own address; Leave sets its flag and keeps the
      incarnation of that moment for its dead message. */
  lemma LocalCallsAre(s: State, meta: seq<byte>, vsn: seq<byte>)
    requires s.mode == Running && s.self in s.table && |vsn| == 6
    ensures var mine, inc := s.table[s.self], (s.counter + 1) % 0x1_0000_0000;
      Step(s, Take(meta, vsn)) ==
      s.(counter := inc, updates := s.updates + [AliveMsg(inc, s.self, mine.addr, mine.port, meta, vsn)])
    ensures !s.leave ==>
      Step(s, Leaving) == s.(leave := true, departing := Some(Claim(s.table[s.self].inc, s.self, "")))
  {
  }

  /** Whom a step can be about. */
  function Touched(s: State, e: Event): Option<string> {
    match e
    case Receive(a, _) => Some(a.node)
    case Suspected(c) => Some(c.node)
    case Died(c) => Some(c.node)
    case Fired(t) => Some(t.node)
    case Update(_) => Some(s.self)
    case Left => Some(s.self)
    case _ => None
  }

  /** Entries of all others stay as they are. A reset removes exactly the dead. */
  lemma OthersAreUntouched(s: State, e: Event, n: string)
    requires OwnUpdates(s) && Enabled(s, e) && Touched(s, e) != Some(n)
    ensures n in Step(s, e).table <==> n in s.table && (e.Reset? ==> s.table[n].status != Dead)
    ensures n in Step(s, e).table ==> Step(s, e).table[n] == s.table[n]
  {
    match e
    case Receive(a, random) => AliveTouchesOne(s, a, false, random, n);
    case Update(i) =>
      assert s.updates[i] in s.updates;
      AliveTouchesOne(s.(updates := s.updates[..i] + s.updates[i + 1..]), s.updates[i], true, 0, n);
    case Left => assert s.departing.value.node == s.self;
    case _ =>
  }

  lemma AliveTouchesOne(s: State, a: AliveMsg, bootstrap: bool, random: nat, n: string)
    requires n != a.node
    ensures var s' := AliveNode(s, a, bootstrap, random);
      (n in s'.table <==> n in s.table) && (n in s.table ==> s'.table[n] == s.table[n])
  {
  }

  /** What is not accepted changes nothing, except that an alive message about an unknown node lists it as dead
      with incarnation 0, at a random slot whose node moves to the end. */
  lemma IgnoredChangesNothing(s: State, e: Event)
    requires Enabled(s, e) && IsMessage(e) && Subject(e) != s.self && !Accepts(s, e)
    ensures Step(s, e) == s || (e.Receive? && e.a.node !in s.table && Step(s, e) == Insert(s, e.a, e.random))
  {
    assert forall b: Broadcast :: (s.log + [b])[|s.log|] == b;
  }

  lemma InsertedIs(s: State, a: AliveMsg, random: nat)
    ensures var s', n, last := Insert(s, a, random), a.node, |s.order|;
      && s'.table == s.table[n := Entry(a.addr, a.port, a.meta, [0, 0, 0, 0, 0, 0], 0, Dead, 0)]
      && |s'.order| == last + 1
      && (last == 0 ==> s'.order == [n])
      && (last > 0 ==> var slot := random % last;
            s'.order[slot] == n && s'.order[last] == s.order[slot]
            && forall k :: 0 <= k < last && k != slot ==> s'.order[k] == s.order[k])
      && s'.numNodes == (s.numNodes + 1) % 0x1_0000_0000
  {
  }

  // ----- Over runs

  /** What an alive message says about a node apart from its incarnation. */
  predicate Says(a: AliveMsg, now: Entry) {
    now.addr == a.addr && now.port == a.port && now.meta == a.meta && (|a.vsn| >= 6 ==> now.vsn == a.vsn[..6])
  }

  predicate SameData(e: Entry, e': Entry) {
    e'.addr == e.addr && e'.port == e.port && e'.meta == e.meta && e'.vsn == e.vsn
  }

  predicate TellsAbout(s: State, e: Event, n: string)
    requires Enabled(s, e)
  {
    Told(s, e).Some? && Told(s, e).value.node == n
  }

  /** Nothing but an accepted alive message changes what an entry says about its node. */
  lemma UntoldKeepsData(s: State, e: Event, n: string)
    requires LocalOk(s) && Enabled(s, e) && n in s.table && n in Step(s, e).table && !TellsAbout(s, e, n)
    ensures SameData(s.table[n], Step(s, e).table[n])
  {
    if Touched(s, e) != Some(n) {
      OthersAreUntouched(s, e, n);
    } else {
      match e
      case Receive(a, random) => AliveUntold(s, a, false, random);
      case Update(i) =>
        assert s.updates[i] in s.updates;
        AliveUntold(s.(updates := s.updates[..i] + s.updates[i + 1..]), s.updates[i], true, 0);
      case _ => ClaimsKeepData(s, e, n);
    }
  }

  lemma AliveUntold(s: State, a: AliveMsg, bootstrap: bool, random: nat)
    requires a.node in s.table
    requires AliveNode(s, a, bootstrap, random).log == s.log || (!bootstrap && a.node == s.self)
    ensures var s' := AliveNode(s, a, bootstrap, random);
      a.node in s'.table && SameData(s.table[a.node], s'.table[a.node])
  {
    assert (s.log + [AliveB(a)])[|s.log|] == AliveB(a);
  }

  lemma ClaimsKeepData(s: State, e: Event, n: string)
    requires OwnUpdates(s) && Enabled(s, e) && (e.Suspected? || e.Died? || e.Fired? || e.Left?) && n in s.table
    ensures n in Step(s, e).table && SameData(s.table[n], Step(s, e).table[n])
  {
  }

  /** No alive message about n is taken over from step i up to step j. */
  ghost predicate Untold(states: seq<State>, events: seq<Event>, n: string, i: nat, j: nat)
    requires Trace(states, events) && j <= |events|
  {
    forall k {:trigger events[k]} :: i <= k < j ==> !TellsAbout(states[k], events[k], n)
  }

  /** While a node stays in the table, its entry says what the last accepted alive message about it said. */
  lemma {:induction false} LastToldIsKept(states: seq<State>, events: seq<Event>, a: AliveMsg, i: nat, j: nat)
    requires Run(states, events) && i < j < |states|
    requires Enabled(states[i], events[i]) && Told(states[i], events[i]) == Some(a) && states[i + 1].mode == Running
    requires Stays(states, a.node, i + 1, j) && Untold(states, events, a.node, i + 1, j)
    ensures Says(a, states[j].table[a.node])
    decreases j
  {
    var k := j - 1;
    RunKeepsLocalOk(states, events, k);
    if j == i + 1 {
      ToldIsStored(states[i], events[i], a);
    } else {
      LastToldIsKept(states, events, a, i, k);
      assert !TellsAbout(states[k], events[k], a.node);
      assert a.node in states[k].table && a.node in states[j].table;
      UntoldKeepsData(states[k], events[k], a.node);
    }
  }
}
