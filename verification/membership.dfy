/** memberlist's gossip membership as a state machine: one node's table of peers and everything
    that can happen to it. A step is what the source does under one hold of its node lock. */
module Membership {
  import opened Bytes
  import opened Wrappers

  type uint32 = x: int | 0 <= x < 0x1_0000_0000
  const Max32: uint32 := 0xFFFF_FFFF

  datatype Status = Alive | Suspect | Dead

  datatype Entry = Entry(
    addr: seq<byte>, port: nat, meta: seq<byte>, vsn: seq<byte>,
    inc: uint32, status: Status, stamp: nat)

  datatype AliveMsg = AliveMsg(inc: uint32, node: string, addr: seq<byte>, port: nat, meta: seq<byte>, vsn: seq<byte>)

  /** The body of a suspect or a dead message. */
  datatype Claim = Claim(inc: uint32, node: string, from: string)

  datatype Broadcast = AliveB(alive: AliveMsg) | SuspectB(suspect: Claim) | DeadB(dead: Claim)

  datatype Timer = Timer(node: string, stamp: nat)

  /** Spinning: a refutation loop that never ends, with the lock held. Crashed: a Go panic. */
  datatype Mode = Running | Spinning | Crashed

  datatype State = State(
    self: string,
    table: map<string, Entry>,
    order: seq<string>,          // the names in the node list
    numNodes: uint32,
    counter: uint32,             // the last incarnation number handed out
    leave: bool,
    clock: nat,
    timers: set<Timer>,
    log: seq<Broadcast>,         // every broadcast queued so far
    updates: seq<AliveMsg>,      // UpdateNode calls that have taken a number and not yet applied it
    departing: Option<Claim>,    // a Leave call that has set the flag and not yet applied it
    mode: Mode)

  // ----- Incarnation numbers

  /** The next number of the 32-bit counter. */
  function Successor(counter: uint32): uint32 {
    (counter + 1) % 0x1_0000_0000
  }

  /** The counter after n turns. */
  function Turned(counter: uint32, n: nat): uint32
    decreases n
  {
    if n == 0 then counter else Turned(Successor(counter), n - 1)
  }

  /** Where the refutation loop stops: the first number it draws above the claim. */
  function NextAbove(counter: uint32, claim: uint32): Option<uint32> {
    if claim == Max32 then None
    else if counter == Max32 || counter < claim then Some(claim + 1)
    else Some(counter + 1)
  }

  // ----- Messages

  const NoVersions: seq<byte> := [0, 0, 0, 0, 0, 0]

  /** A node never seen before enters as dead with incarnation 0, at the end of the list and then
      swapped with a random position. */
  function Insert(s: State, a: AliveMsg, random: nat): State {
    Listed(s, a.node, Entry(a.addr, a.port, a.meta, NoVersions, 0, Dead, 0), random)
  }

  /** The random source is any number. */
  function RandomOffset(n: nat, random: nat): (offset: nat)
    ensures offset < n || (n == 0 && offset == 0)
  {
    if n == 0 then 0 else random % n
  }

  function Listed(s: State, n: string, e: Entry, random: nat): State {
    var last := |s.order|;
    var offset := RandomOffset(last, random);
    s.(table := s.table[n := e],
       order := Swapped(s.order + [n], offset, last),
       numNodes := (s.numNodes + 1) % 0x1_0000_0000)
  }

  function Swapped<T>(list: seq<T>, i: nat, j: nat): (r: seq<T>)
    requires i < |list| && j < |list|
    ensures |r| == |list|
  {
    seq(|list|, k requires 0 <= k < |list| => if k == i then list[j] else if k == j then list[i] else list[k])
  }

  function AliveNode(s: State, a: AliveMsg, bootstrap: bool, random: nat): State {
    if s.leave && a.node == s.self then s
    else
      var s := if a.node in s.table then s else Insert(s, a, random);
      Heard(s, s.table[a.node], a, bootstrap)
  }

  /** What an alive message does to the entry of its node. */
  function Heard(s: State, e: Entry, a: AliveMsg, bootstrap: bool): State {
    var local := a.node == s.self;
    if e.addr != a.addr || e.port != a.port then s
    else if a.inc <= e.inc && !local then s
    else if a.inc < e.inc && local then s
    else if !bootstrap && local then
      if a.inc == e.inc && a.meta == e.meta && a.vsn == e.vsn then s
      else Refute(s, e, a.inc)
    else
      Accept(s, e, a)
  }

  /** Passes an alive message on and stores what it says. One to five version bytes crash the
      source after the broadcast is queued. */
  function Accept(s: State, e: Entry, a: AliveMsg): State {
    var s := s.(log := s.log + [AliveB(a)]);
    if 0 < |a.vsn| < 6 then s.(mode := Crashed) else Store(s, e, a)
  }

  function Store(s: State, e: Entry, a: AliveMsg): State
    requires |a.vsn| == 0 || |a.vsn| >= 6
  {
    var vsn := if a.vsn == [] then e.vsn else a.vsn[..6];
    var revived := e.status != Alive;
    s.(table := s.table[a.node := e.(vsn := vsn, inc := a.inc, meta := a.meta, status := Alive,
                                     stamp := if revived then s.clock else e.stamp)],
       clock := if revived then s.clock + 1 else s.clock)
  }

  /** Answers a claim about the local node with a higher incarnation. */
  function Refute(s: State, e: Entry, claim: uint32): State {
    match NextAbove(s.counter, claim)
    case None => s.(mode := Spinning)
    case Some(inc) =>
      s.(table := s.table[s.self := e.(inc := inc)],
         counter := inc,
         log := s.log + [AliveB(AliveMsg(inc, s.self, e.addr, e.port, e.meta, e.vsn))])
  }

  function SuspectNode(s: State, c: Claim): State {
    if c.node !in s.table then s
    else
      var e := s.table[c.node];
      if c.inc < e.inc || e.status != Alive then s
      else if c.node == s.self then Refute(s, e, c.inc)
      else Suspicion(s, e, c)
  }

  function Suspicion(s: State, e: Entry, c: Claim): State {
    s.(log := s.log + [SuspectB(c)],
       table := s.table[c.node := e.(inc := c.inc, status := Suspect, stamp := s.clock)],
       timers := s.timers + {Timer(c.node, s.clock)},
       clock := s.clock + 1)
  }

  function DeadNode(s: State, c: Claim): State {
    if c.node !in s.table then s
    else
      var e := s.table[c.node];
      if c.inc < e.inc || e.status == Dead then s
      else if c.node == s.self && !s.leave then Refute(s, e, c.inc)
      else Death(s, e, c)
  }

  function Death(s: State, e: Entry, c: Claim): State {
    s.(log := s.log + [DeadB(c)],
       table := s.table[c.node := e.(inc := c.inc, status := Dead, stamp := s.clock)],
       clock := s.clock + 1)
  }

  // ----- Timers, reaping and local calls

  /** The suspicion that armed this timer is the current one. */
  predicate Current(s: State, t: Timer) {
    t.node in s.table && s.table[t.node].status == Suspect && s.table[t.node].stamp == t.stamp
  }

  function Fire(s: State, t: Timer): State {
    var s := s.(timers := s.timers - {t});
    if Current(s, t) then DeadNode(s, Claim(s.table[t.node].inc, t.node, s.self)) else s
  }

  /** The names that survive a reset, in list order. */
  function Survivors(table: map<string, Entry>, order: seq<string>): seq<string> {
    if order == [] then []
    else
      (if order[0] in table && table[order[0]].status == Dead then [] else [order[0]])
      + Survivors(table, order[1..])
  }

  function WithoutDead(table: map<string, Entry>): map<string, Entry> {
    map n | n in table && table[n].status != Dead :: table[n]
  }

  function ResetNodes(s: State, shuffled: seq<string>): State {
    s.(table := WithoutDead(s.table),
       order := shuffled,
       numNodes := |shuffled| % 0x1_0000_0000)
  }

  /** UpdateNode up to the number it takes. Without a local entry the source dereferences nil. */
  function TakeUpdate(s: State, meta: seq<byte>, vsn: seq<byte>): State {
    if s.self !in s.table then s.(mode := Crashed)
    else
      var e, inc := s.table[s.self], Successor(s.counter);
      s.(counter := inc, updates := s.updates + [AliveMsg(inc, s.self, e.addr, e.port, meta, vsn)])
  }

  function ApplyUpdate(s: State, i: nat): State
    requires i < |s.updates|
  {
    AliveNode(s.(updates := s.updates[..i] + s.updates[i + 1..]), s.updates[i], true, 0)
  }

  function SetLeave(s: State): State {
    if s.leave then s
    else s.(leave := true,
            departing := if s.self in s.table then Some(Claim(s.table[s.self].inc, s.self, "")) else None)
  }

  function ApplyLeave(s: State): State
    requires s.departing.Some?
  {
    DeadNode(s.(departing := None), s.departing.value)
  }

  // ----- Push/pull

  datatype Remote = Remote(name: string, addr: seq<byte>, port: nat, meta: seq<byte>,
                           inc: uint32, status: Status, vsn: seq<byte>)

  function MergeOne(s: State, r: Remote, random: nat): State {
    match r.status
    case Alive => AliveNode(s, AliveMsg(r.inc, r.name, r.addr, r.port, r.meta, r.vsn), false, random)
    case _ => SuspectNode(s, Claim(r.inc, r.name, s.self))
  }

  /** Merging stops where the node hangs or crashes. */
  function MergeState(s: State, remote: seq<Remote>, random: nat -> nat): State
    decreases |remote|
  {
    if remote == [] || s.mode != Running then s
    else MergeState(MergeOne(s, remote[0], random(|remote|)), remote[1..], random)
  }

  // ----- Runs

  datatype Event =
    | Receive(a: AliveMsg, random: nat)
    | Suspected(c: Claim)
    | Died(c: Claim)
    | Fired(t: Timer)
    | Reset(shuffled: seq<string>)
    | Take(meta: seq<byte>, vsn: seq<byte>)
    | Update(i: nat)
    | Leaving
    | Left

  predicate Enabled(s: State, e: Event) {
    && s.mode == Running
    && match e
       case Fired(t) => t in s.timers
       case Reset(shuffled) => multiset(shuffled) == multiset(Survivors(s.table, s.order))
       case Take(_, vsn) => |vsn| == 6
       case Update(i) => i < |s.updates|
       case Left => s.departing.Some?
       case _ => true
  }

  function Step(s: State, e: Event): State
    requires Enabled(s, e)
  {
    match e
    case Receive(a, random) => AliveNode(s, a, false, random)
    case Suspected(c) => SuspectNode(s, c)
    case Died(c) => DeadNode(s, c)
    case Fired(t) => Fire(s, t)
    case Reset(shuffled) => ResetNodes(s, shuffled)
    case Take(meta, vsn) => TakeUpdate(s, meta, vsn)
    case Update(i) => ApplyUpdate(s, i)
    case Leaving => SetLeave(s)
    case Left => ApplyLeave(s)
  }

  /** A node that has just announced itself, whatever address and versions it was configured with. */
  predicate Initial(s: State) {
    && s.table.Keys == {s.self} && s.order == [s.self] && s.numNodes == 1
    && JustAnnounced(s, s.table[s.self])
    && !s.leave && s.timers == {} && s.updates == [] && s.departing == None && s.mode == Running
  }

  /** A node before its first announcement. */
  function Unborn(self: string): State {
    State(self, map[], [], 0, 0, false, 1, {}, [], [], None, Running)
  }

  /** What setAlive does: the first number, and an alive message about oneself. */
  function SetAlive(self: string, addr: seq<byte>, port: nat, meta: seq<byte>, vsn: seq<byte>): State {
    var s := Unborn(self);
    AliveNode(s.(counter := Successor(s.counter)), AliveMsg(Successor(s.counter), self, addr, port, meta, vsn), true, 0)
  }

  predicate JustAnnounced(s: State, e: Entry) {
    && e.status == Alive && e.inc == s.counter == 1 && |e.vsn| == 6 && e.stamp < s.clock
    && s.log == [AliveB(AliveMsg(1, s.self, e.addr, e.port, e.meta, e.vsn))]
  }

  /** Consecutive states, from any state on. */
  ghost predicate Trace(states: seq<State>, events: seq<Event>) {
    && |states| == |events| + 1
    && forall i {:trigger events[i]} :: 0 <= i < |events| ==>
         Enabled(states[i], events[i]) && states[i + 1] == Step(states[i], events[i])
  }

  ghost predicate Run(states: seq<State>, events: seq<Event>) {
    Trace(states, events) && Initial(states[0])
  }
}
