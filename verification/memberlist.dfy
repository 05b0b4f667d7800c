/** The Memberlist object: node records shared between a list and a map, updated in place.
    Every method is proved to be the corresponding step of the membership state machine. */
module Memberlists {
  import opened Bytes
  import opened Wrappers
  import opened Membership
  import opened MembershipProofs
  import opened MembershipTimers
  import opened MembershipProbing
  import opened Shuffling

  class NodeState {
    const name: string
    var addr: seq<byte>
    var port: nat
    var meta: seq<byte>
    var pMin: byte
    var pMax: byte
    var pCur: byte
    var dMin: byte
    var dMax: byte
    var dCur: byte
    var incarnation: uint32
    var state: Status
    var stateChange: nat

    constructor (a: AliveMsg)
      ensures name == a.node && View() == Entry(a.addr, a.port, a.meta, NoVersions, 0, Dead, 0)
    {
      name, addr, port, meta := a.node, a.addr, a.port, a.meta;
      pMin, pMax, pCur, dMin, dMax, dCur := 0, 0, 0, 0, 0, 0;
      incarnation, state, stateChange := 0, Dead, 0;
    }

    function Versions(): (v: seq<byte>)
      reads this
      ensures |v| == 6
    {
      [pMin, pMax, pCur, dMin, dMax, dCur]
    }

    function View(): Entry
      reads this
    {
      Entry(addr, port, meta, Versions(), incarnation, state, stateChange)
    }

    method SetIncarnation(inc: uint32)
      modifies this
      ensures View() == old(View()).(inc := inc)
    {
      incarnation := inc;
    }

    method SetState(inc: uint32, status: Status, changeTime: nat)
      modifies this
      ensures View() == old(View()).(inc := inc, status := status, stamp := changeTime)
    {
      incarnation := inc;
      state := status;
      stateChange := changeTime;
    }

    /** Takes over what an alive message says, stamping the change when the node was not alive. */
    method Adopt(a: AliveMsg, now: nat) returns (revived: bool)
      requires |a.vsn| == 0 || |a.vsn| >= 6
      modifies this
      ensures revived == (old(state) != Alive)
      ensures View() == old(View()).(
        vsn := if a.vsn == [] then old(Versions()) else a.vsn[..6],
        inc := a.inc, meta := a.meta, status := Alive, stamp := if revived then now else old(stateChange))
    {
      if |a.vsn| > 0 {
        pMin, pMax, pCur := a.vsn[0], a.vsn[1], a.vsn[2];
        dMin, dMax, dCur := a.vsn[3], a.vsn[4], a.vsn[5];
      }
      incarnation := a.inc;
      meta := a.meta;
      revived := state != Alive;
      if revived {
        state := Alive;
        stateChange := now;
      }
    }
  }

  class Memberlist {
    const name: string
    var incarnation: uint32
    var numNodes: uint32
    var leave: bool
    var nodes: seq<NodeState>
    var nodeMap: map<string, NodeState>
    var clock: nat
    var timers: set<Timer>
    var broadcasts: seq<Broadcast>
    var updates: seq<AliveMsg>
    var departing: Option<Claim>
    var mode: Mode
    var probeIndex: nat

    /** A memberlist that has announced itself, with the address and versions of its configuration. */
    constructor (name: string, addr: seq<byte>, port: nat, meta: seq<byte>, vsn: seq<byte>)
      requires |vsn| == 6
      ensures Agreed()
      ensures View() == SetAlive(name, addr, port, meta, vsn) && Initial(View())
    {
      this.name := name;
      incarnation, numNodes, leave := 0, 0, false;
      nodes, nodeMap := [], map[];
      clock, timers, broadcasts, updates, departing, mode := 1, {}, [], [], None, Running;
      probeIndex := 0;
      new;
      var inc := NextIncarnation();
      AliveNode(AliveMsg(inc, name, addr, port, meta, vsn), true, 0);
      SetAliveIsInitial(name, addr, port, meta, vsn);
    }

    ghost predicate Agreed()
      reads `nodes, `nodeMap, `numNodes
    {
      Agreement(nodes, nodeMap, numNodes)
    }

    ghost function Table(): map<string, Entry>
      reads `nodes, `nodeMap, nodes
    {
      map n | n in nodeMap && nodeMap[n] in nodes :: nodeMap[n].View()
    }

    ghost function View(): State
      reads `incarnation, `numNodes, `leave, `nodes, `nodeMap, `clock, `timers, `broadcasts
      reads `updates, `departing, `mode, nodes
    {
      State(name, Table(), Names(nodes), numNodes, incarnation, leave, clock, timers, broadcasts,
            updates, departing, mode)
    }

    twostate lemma SameEntries()
      requires nodes == old(nodes) && nodeMap == old(nodeMap) && forall x :: x in nodes ==> unchanged(x)
      ensures Table() == old(Table())
    {
    }

    /** Updating one record changes one entry of the table. */
    twostate lemma OneEntry(state: NodeState)
      requires old(Agreed()) && Agreed() && nodes == old(nodes) && nodeMap == old(nodeMap)
      requires state in nodes && forall x :: x in nodes && x != state ==> unchanged(x)
      ensures Table() == old(Table())[state.name := state.View()]
    {
    }

    method NextIncarnation() returns (inc: uint32)
      modifies this`incarnation
      ensures inc == incarnation == Successor(old(incarnation))
    {
      incarnation := (incarnation + 1) % 0x1_0000_0000;
      inc := incarnation;
    }

    /** The refutation loop. For the largest claim it would not end; its callers mark the node instead. */
    method IncarnationAbove(claim: uint32) returns (inc: uint32)
      requires claim < Max32
      modifies this`incarnation
      ensures incarnation == inc && NextAbove(old(incarnation), claim) == Some(inc)
    {
      inc := NextIncarnation();
      while claim >= inc
        invariant inc == incarnation
        invariant claim < inc ==> NextAbove(old(incarnation), claim) == Some(inc)
        invariant inc <= claim ==> old(incarnation) == Max32 || old(incarnation) < claim
        decreases claim - inc
      {
        inc := NextIncarnation();
      }
    }

    /** Raises the incarnation of the local record above a claim and announces it. */
    method Refute(state: NodeState, claim: uint32)
      requires Agreed() && state in nodes && state.name == name
      modifies this, nodes
      ensures Agreed() && nodes == old(nodes)
      ensures View() == Membership.Refute(old(View()), old(state.View()), claim)
    {
      if claim == Max32 {
        mode := Spinning;
        return;
      }
      var inc := IncarnationAbove(claim);
      state.SetIncarnation(inc);
      broadcasts := broadcasts
        + [AliveB(AliveMsg(inc, state.name, state.addr, state.port, state.meta, state.Versions()))];
      OneEntry(state);
    }

    /** Adds a record for a node never seen before at the end of the list and swaps it to a random offset. */
    method AddNode(a: AliveMsg, random: nat) returns (state: NodeState)
      requires Agreed() && a.node !in nodeMap
      modifies `nodes, `nodeMap, `numNodes
      ensures Agreed() && fresh(state) && state in nodes && state.name == a.node
      ensures forall x :: x in nodes ==> x == state || x in old(nodes)
      ensures View() == Insert(old(View()), a, random)
    {
      state := new NodeState(a);
      Enlist(state, random);
      OneMoreEntry(state);
      OneMoreName(state, RandomOffset(|old(nodes)|, random));
    }

    method Enlist(state: NodeState, random: nat)
      requires Agreed() && state.name !in nodeMap
      modifies `nodes, `nodeMap, `numNodes
      ensures Agreed()
      ensures nodes == Swapped(old(nodes) + [state], RandomOffset(|old(nodes)|, random), |old(nodes)|)
      ensures forall x :: x in nodes <==> x == state || x in old(nodes)
      ensures nodeMap == old(nodeMap)[state.name := state]
      ensures numNodes == (old(numNodes) + 1) % 0x1_0000_0000
    {
      var n := |nodes|;
      var offset := RandomOffset(n, random);
      var list := nodes + [state];
      AgreementAfterAdding(nodes, nodeMap, numNodes, state, offset);
      nodeMap := nodeMap[state.name := state];
      nodes := Swapped(list, offset, n);
      numNodes := (numNodes + 1) % 0x1_0000_0000;
    }

    /** Adding one record adds one entry. */
    twostate lemma OneMoreEntry(new state: NodeState)
      requires old(Agreed()) && Agreed() && nodeMap == old(nodeMap)[state.name := state]
      requires forall x :: x in old(nodes) ==> x in nodes && unchanged(x)
      requires state in nodes
      ensures Table() == old(Table())[state.name := state.View()]
    {
    }

    twostate lemma OneMoreName(new state: NodeState, offset: nat)
      requires offset <= |old(nodes)| && nodes == Swapped(old(nodes) + [state], offset, |old(nodes)|)
      ensures Names(nodes) == Swapped(old(Names(nodes)) + [state.name], offset, |old(nodes)|)
    {
      NamesOfAppended(old(nodes), state);
      NamesOfSwapped(old(nodes) + [state], offset, |old(nodes)|);
    }

    method AliveNode(a: AliveMsg, bootstrap: bool, random: nat)
      requires Agreed() && mode == Running
      modifies this, nodes
      ensures Agreed() && View() == Membership.AliveNode(old(View()), a, bootstrap, random)
      ensures forall x :: x in nodes ==> x in old(nodes) || fresh(x)
    {
      if leave && a.node == name {
        return;
      }
      var state;
      if a.node in nodeMap {
        state := nodeMap[a.node];
      } else {
        state := AddNode(a, random);
      }
      Heard(state, a, bootstrap);
    }

    /** What an alive message does to the record of its node. */
    method Heard(state: NodeState, a: AliveMsg, bootstrap: bool)
      requires Agreed() && mode == Running && state in nodes && state.name == a.node
      modifies this, nodes
      ensures Agreed() && nodes == old(nodes)
      ensures View() == Membership.Heard(old(View()), old(state.View()), a, bootstrap)
    {
      if state.addr != a.addr || state.port != a.port {
        return;
      }
      var isLocalNode := state.name == name;
      if a.inc <= state.incarnation && !isLocalNode {
        return;
      }
      if a.inc < state.incarnation && isLocalNode {
        return;
      }
      if !bootstrap && isLocalNode {
        if a.inc == state.incarnation && a.meta == state.meta && a.vsn == state.Versions() {
          return;
        }
        Refute(state, a.inc);
      } else {
        Accept(state, a);
      }
    }

    /** Passes an alive message on and stores what it says. Between one and five version bytes
        index out of range after the broadcast was queued. */
    method Accept(state: NodeState, a: AliveMsg)
      requires Agreed() && state in nodes && state.name == a.node
      modifies this, nodes
      ensures Agreed() && nodes == old(nodes)
      ensures View() == Membership.Accept(old(View()), old(state.View()), a)
    {
      broadcasts := broadcasts + [AliveB(a)];
      SameEntries();
      if 0 < |a.vsn| < 6 {
        mode := Crashed;
        return;
      }
      Store(state, a);
    }

    method Store(state: NodeState, a: AliveMsg)
      requires Agreed() && state in nodes && state.name == a.node && (|a.vsn| == 0 || |a.vsn| >= 6)
      modifies this, nodes
      ensures Agreed() && nodes == old(nodes)
      ensures View() == Membership.Store(old(View()), old(state.View()), a)
    {
      var revived := state.Adopt(a, clock);
      clock := if revived then clock + 1 else clock;
      OneEntry(state);
    }

    method SuspectNode(s: Claim)
      requires Agreed() && mode == Running
      modifies this, nodes
      ensures Agreed() && nodes == old(nodes) && View() == Membership.SuspectNode(old(View()), s)
    {
      if s.node !in nodeMap {
        return;
      }
      var state := nodeMap[s.node];
      if s.inc < state.incarnation {
        return;
      }
      if state.state != Alive {
        return;
      }
      if state.name == name {
        Refute(state, s.inc);
        return;
      }
      Suspicion(state, s);
    }

    /** Passes the suspicion on, stores it and arms its timer. */
    method Suspicion(state: NodeState, s: Claim)
      requires Agreed() && state in nodes && state.name == s.node
      modifies this, nodes
      ensures Agreed() && nodes == old(nodes)
      ensures View() == Membership.Suspicion(old(View()), old(state.View()), s)
    {
      broadcasts := broadcasts + [SuspectB(s)];
      var changeTime := clock;
      clock := clock + 1;
      state.SetState(s.inc, Suspect, changeTime);
      timers := timers + {Timer(s.node, changeTime)};
      OneEntry(state);
    }

    method DeadNode(d: Claim)
      requires Agreed() && mode == Running
      modifies this, nodes
      ensures Agreed() && nodes == old(nodes) && View() == Membership.DeadNode(old(View()), d)
    {
      if d.node !in nodeMap {
        return;
      }
      var state := nodeMap[d.node];
      if d.inc < state.incarnation {
        return;
      }
      if state.state == Dead {
        return;
      }
      if state.name == name && !leave {
        Refute(state, d.inc);
        return;
      }
      Death(state, d);
    }

    /** Passes the death on and stores it. */
    method Death(state: NodeState, d: Claim)
      requires Agreed() && state in nodes && state.name == d.node
      modifies this, nodes
      ensures Agreed() && nodes == old(nodes)
      ensures View() == Membership.Death(old(View()), old(state.View()), d)
    {
      broadcasts := broadcasts + [DeadB(d)];
      state.SetState(d.inc, Dead, clock);
      clock := clock + 1;
      OneEntry(state);
    }

    /** The function a suspicion timer runs: the check, and the kill when it holds. */
    method TimerFires(t: Timer)
      requires Agreed() && mode == Running && t in timers
      modifies this, nodes
      ensures Agreed() && nodes == old(nodes) && View() == Fire(old(View()), t)
    {
      timers := timers - {t};
      SameEntries();
      if t.node in nodeMap {
        var state := nodeMap[t.node];
        if state.state == Suspect && state.stateChange == t.stamp {
          DeadNode(Claim(state.incarnation, state.name, name));
        }
      }
    }

    /** One record of a push/pull exchange: a dead peer is only suspected. */
    method MergeOne(r: Remote, random: nat)
      requires Agreed() && mode == Running
      modifies this, nodes
      ensures Agreed() && View() == Membership.MergeOne(old(View()), r, random)
      ensures forall x :: x in nodes ==> x in old(nodes) || fresh(x)
    {
      match r.status {
        case Alive =>
          AliveNode(AliveMsg(r.inc, r.name, r.addr, r.port, r.meta, r.vsn), false, random);
        case _ =>
          SuspectNode(Claim(r.inc, r.name, name));
      }
    }

    method MergeState(remote: seq<Remote>, random: nat -> nat)
      requires Agreed() && mode == Running
      modifies this, nodes
      ensures Agreed() && View() == Membership.MergeState(old(View()), remote, random)
    {
      var i := 0;
      ghost var rest := remote;
      while i < |remote| && mode == Running
        invariant 0 <= i <= |remote| && rest == remote[i..] && Agreed()
        invariant forall k :: 0 <= k < |nodes| ==> nodes[k] in old(nodes) || fresh(nodes[k])
        invariant Membership.MergeState(View(), rest, random) == Membership.MergeState(old(View()), remote, random)
      {
        ghost var now, before := View(), nodes;
        label L:
        MergeOne(remote[i], random(|remote| - i));
        forall k | 0 <= k < |nodes| ensures nodes[k] in old(nodes) || fresh(nodes[k]) {
          assert nodes[k] in nodes;
          assert nodes[k] in before || fresh@L(nodes[k]);
        }
        MergeUnfolds(now, View(), remote, i, random);
        i := i + 1;
        rest := remote[i..];
      }
    }

    method SendLocalState() returns (localNodes: seq<Remote>)
      requires Agreed()
      ensures forall n :: n in View().order ==> n in View().table
      ensures localNodes == Snapshot(View(), View().order)
    {
      localNodes := [];
      ghost var names, now := Names(nodes), View();
      for idx := 0 to |nodes|
        invariant localNodes == Snapshot(now, names[..idx])
      {
        var n := nodes[idx];
        localNodes := localNodes + [Remote(n.name, n.addr, n.port, n.meta, n.incarnation, n.state, n.Versions())];
        assert names[idx] == n.name && now.table[n.name] == n.View();
        SnapshotAppend(now, names[..idx], n.name);
        PrefixStep(names, idx);
      }
      PrefixEnd(names);
    }

    /** Reaps the dead and shuffles the rest. The random source is any function. */
    method ResetNodes(random: nat -> nat)
      requires Agreed()
      modifies `nodes, `nodeMap, `numNodes
      ensures Agreed() && forall x :: x in nodes ==> x in old(nodes)
      ensures View() == Membership.ResetNodes(old(View()), View().order)
      ensures multiset(View().order) == multiset(Survivors(old(View()).table, old(View()).order))
    {
      var live, dead := SortedOut(nodes, random);
      nodeMap := WithoutNames(nodeMap, dead);
      nodes := live;
      numNodes := |live| % 0x1_0000_0000;
      Reaped(dead);
    }

    /** The state after reaping, whatever order the live records are in. */
    twostate lemma Reaped(new dead: seq<NodeState>)
      requires old(Agreed()) && multiset(nodes + dead) == multiset(old(nodes))
      requires NoneDead(nodes) && AllDead(dead) && numNodes == |nodes| % 0x1_0000_0000
      requires forall n :: n in nodeMap <==> n in old(nodeMap) && n !in Names(dead)
      requires forall n :: n in nodeMap ==> nodeMap[n] == old(nodeMap)[n]
      requires forall x :: x in old(nodes) ==> unchanged(x)
      ensures Agreed() && forall x :: x in nodes ==> x in old(nodes)
      ensures Table() == WithoutDead(old(Table()))
      ensures multiset(Names(nodes)) == multiset(Survivors(old(Table()), old(Names(nodes))))
    {
      Partition(old(nodes), nodes, dead);
      AgreementAfterReaping(old(nodes), old(nodeMap), old(numNodes), nodes, dead, nodeMap);
      LiveEntries(dead);
    }

    /** What reaping leaves of the table and of the list. */
    twostate lemma LiveEntries(new dead: seq<NodeState>)
      requires old(Agreed()) && Agreed() && NoneDead(nodes) && AllDead(dead)
      requires forall x :: x in old(nodes) ==> unchanged(x)
      requires forall x :: x in nodes <==> x in old(nodes) && x !in dead
      requires forall n :: n in nodeMap ==> n in old(nodeMap) && nodeMap[n] == old(nodeMap)[n]
      requires forall n :: n in old(nodeMap) && n !in nodeMap ==> old(nodeMap)[n] in dead
      ensures Table() == WithoutDead(old(Table()))
      ensures multiset(Names(nodes)) == multiset(Survivors(old(Table()), old(Names(nodes))))
    {
      LiveTable(dead);
      EntriesAreListed();
      EntriesWereListed();
      SurvivingNames(old(Table()), old(Names(nodes)), Table(), Names(nodes));
    }

    lemma EntriesAreListed()
      requires Agreed()
      ensures NoDuplicates(Names(nodes)) && forall n :: n in Names(nodes) <==> n in Table()
    {
      NamesAreKeysOf(nodes, nodeMap);
    }

    twostate lemma EntriesWereListed()
      requires old(Agreed())
      ensures NoDuplicates(old(Names(nodes))) && forall n :: n in old(Names(nodes)) <==> n in old(Table())
    {
      NamesAreKeysOf(old(nodes), old(nodeMap));
    }

    twostate lemma LiveTable(new dead: seq<NodeState>)
      requires old(Agreed()) && Agreed() && NoneDead(nodes) && AllDead(dead)
      requires forall x :: x in old(nodes) ==> unchanged(x)
      requires forall x :: x in nodes <==> x in old(nodes) && x !in dead
      requires forall n :: n in nodeMap ==> n in old(nodeMap) && nodeMap[n] == old(nodeMap)[n]
      requires forall n :: n in old(nodeMap) && n !in nodeMap ==> old(nodeMap)[n] in dead
      ensures Table() == WithoutDead(old(Table()))
    {
    }

    /** One probe call up to the choice of its target: walks on from where the last call stopped, reaping
        and reshuffling the list when it wraps around. */
    method Probe(random: nat -> nat) returns (target: Option<string>)
      requires Agreed()
      modifies `nodes, `nodeMap, `numNodes, `probeIndex
      ensures Agreed()
      ensures ProbeStep(old(View()), old(probeIndex), View(), probeIndex, target)
    {
      var numCheck;
      ghost var start, from := View(), probeIndex;
      target, numCheck := Walk(0);
      ghost var at := probeIndex;
      if target == None && numCheck < |nodes| {
        target := WrapAround(numCheck, random);
        ProbeWraps(start, from, at, numCheck, View(), probeIndex, target);
      } else {
        ProbeStays(start, from, probeIndex, target);
      }
    }

    /** The probe index is not part of the state that messages act on. */
    twostate lemma SameView()
      requires unchanged(`incarnation, `numNodes, `leave, `nodes, `nodeMap, `clock, `timers, `broadcasts)
      requires unchanged(`updates, `departing, `mode) && forall x :: x in nodes ==> unchanged(x)
      ensures View() == old(View())
    {
    }

    /** The rest of a probe call that has reached the end of the list. It cannot reach the end again. */
    method WrapAround(checked: nat, random: nat -> nat) returns (target: Option<string>)
      requires Agreed()
      modifies `nodes, `nodeMap, `numNodes, `probeIndex
      ensures Agreed()
      ensures View() == Membership.ResetNodes(old(View()), View().order)
      ensures multiset(View().order) == multiset(Survivors(old(View()).table, old(View()).order))
      ensures (probeIndex, target) == Walked(View(), 0, checked + 1)
    {
      ResetNodes(random);
      label Reset:
      probeIndex := 0;
      SameView@Reset();
      var numCheck := checked + 1;
      target, numCheck := Walk(numCheck);
      assert target == None ==> numCheck >= |nodes|;
    }

    /** The turns of a probe call until it finds a target, has checked as many slots as the list
        has, or reaches the end of the list. */
    method Walk(checked: nat) returns (target: Option<string>, numCheck: nat)
      requires Agreed()
      modifies `probeIndex
      ensures Agreed() && old(probeIndex) <= probeIndex
      ensures (probeIndex, target) == Walked(View(), old(probeIndex), checked)
      ensures View() == old(View())
      ensures target == None ==> numCheck == checked + probeIndex - old(probeIndex)
      ensures target == None ==> numCheck >= |nodes| || probeIndex >= |nodes|
    {
      target, numCheck := WalkOn(checked, Scan(Minus(|nodes|, checked), Table()));
    }

    method WalkOn(checked: nat, ghost scan: Scan) returns (target: Option<string>, numCheck: nat)
      requires Agreed() && scan == Scan(Minus(|nodes|, checked), Table())
      modifies `probeIndex
      ensures old(probeIndex) <= probeIndex
      ensures (probeIndex, target) == Outcome(name, Names(nodes), old(probeIndex), scan)
      ensures target == None ==> numCheck == checked + probeIndex - old(probeIndex)
      ensures target == None ==> numCheck >= |nodes| || probeIndex >= |nodes|
    {
      target, numCheck := None, checked;
      ghost var order, c := Names(nodes), scan;
      while numCheck < |nodes| && probeIndex < |nodes|
        invariant old(probeIndex) <= probeIndex
        invariant numCheck == checked + probeIndex - old(probeIndex)
        invariant c.table == scan.table && c.budget == Minus(|nodes|, numCheck)
        invariant Outcome(name, order, probeIndex, c) == Outcome(name, order, old(probeIndex), scan)
        decreases |nodes| - probeIndex
      {
        var node := nodes[probeIndex];
        var skip := node.name == name || node.state == Dead;
        SkippedIff(node, order[probeIndex], c.table);
        OutcomeUnfolds(name, order, probeIndex, probeIndex + 1, c);
        probeIndex := probeIndex + 1;
        if !skip {
          return Some(node.name), numCheck;
        }
        numCheck := numCheck + 1;
        c := Scan(c.budget - 1, c.table);
      }
      OutcomeEnds(name, order, probeIndex, c);
    }

    lemma SkippedIff(node: NodeState, n: string, table: map<string, Entry>)
      requires Agreed() && node in nodes && n == node.name && table == Table()
      ensures Eligible(name, table, n) <==> !(node.name == name || node.state == Dead)
    {
    }

    /** UpdateNode until it has its number. */
    method UpdateNodeTakes(meta: seq<byte>, vsn: seq<byte>)
      requires Agreed() && mode == Running && |vsn| == 6
      modifies this
      ensures Agreed() && View() == TakeUpdate(old(View()), meta, vsn)
    {
      if name !in nodeMap {
        mode := Crashed;
        return;
      }
      var state := nodeMap[name];
      var inc := NextIncarnation();
      updates := updates + [AliveMsg(inc, name, state.addr, state.port, meta, vsn)];
      SameEntries();
    }

    /** The rest of an UpdateNode call. */
    method UpdateNodeApplies(i: nat)
      requires Agreed() && mode == Running && i < |updates|
      modifies this, nodes
      ensures Agreed() && View() == ApplyUpdate(old(View()), i)
    {
      var a := updates[i];
      updates := updates[..i] + updates[i + 1..];
      SameEntries();
      AliveNode(a, true, 0);
    }

    /** Leave until its flag is set. */
    method LeaveStarts()
      requires Agreed() && mode == Running
      modifies this
      ensures Agreed() && View() == SetLeave(old(View()))
    {
      if !leave {
        leave := true;
        if name in nodeMap {
          var state := nodeMap[name];
          departing := Some(Claim(state.incarnation, state.name, ""));
        } else {
          departing := None;
        }
      }
      SameEntries();
    }

    /** The rest of a Leave call. */
    method LeaveApplies()
      requires Agreed() && mode == Running && departing.Some?
      modifies this, nodes
      ensures Agreed() && View() == ApplyLeave(old(View()))
    {
      var d := departing.value;
      departing := None;
      SameEntries();
      DeadNode(d);
    }
  }

  ghost predicate AllDead(nodes: seq<NodeState>)
    reads nodes
  {
    forall x :: x in nodes ==> x.state == Dead
  }

  ghost predicate NoneDead(nodes: seq<NodeState>)
    reads nodes
  {
    forall x :: x in nodes ==> x.state != Dead
  }

  method Swap<T>(a: array<T>, i: nat, j: nat)
    requires i < a.Length && j < a.Length
    modifies a
    ensures a[..] == old(a[..])[i := old(a[j])][j := old(a[i])]
    ensures multiset(a[..]) == multiset(old(a[..]))
  {
    a[i], a[j] := a[j], a[i];
  }

  /** Moves the dead to the end of the list and returns where they start. */
  method MoveDeadNodes(nodes: array<NodeState>) returns (deadIdx: nat)
    modifies nodes
    ensures deadIdx <= nodes.Length
    ensures multiset(nodes[..]) == multiset(old(nodes[..]))
    ensures NoneDead(nodes[..deadIdx]) && AllDead(nodes[deadIdx..])
  {
    var numDead := 0;
    var n := nodes.Length;
    var i := 0;
    while i < n - numDead
      invariant 0 <= numDead <= n && 0 <= i <= n - numDead
      invariant multiset(nodes[..]) == multiset(old(nodes[..]))
      invariant forall k :: 0 <= k < i ==> nodes[k].state != Dead
      invariant forall k :: n - numDead <= k < n ==> nodes[k].state == Dead
      decreases n - numDead - i
    {
      if nodes[i].state != Dead {
        i := i + 1;
        continue;
      }
      Swap(nodes, i, n - numDead - 1);
      numDead := numDead + 1;
    }
    deadIdx := n - numDead;
  }

  /** The Fisher-Yates shuffle of the first n records. */
  method ShuffleNodes(nodes: array<NodeState>, n: nat, random: nat -> nat)
    requires n <= nodes.Length
    modifies nodes
    ensures nodes[..n] == Shuffled(old(nodes[..n]), n, random)
    ensures nodes[n..] == old(nodes[n..])
  {
    var i := n - 1;
    ghost var k: nat := n;
    while i > 0
      invariant i < n && k <= n && (i >= 0 ==> k == i + 1) && (i < 0 ==> k == 0)
      invariant Shuffled(nodes[..n], k, random) == Shuffled(old(nodes[..n]), n, random)
      invariant nodes[n..] == old(nodes[n..])
    {
      ShuffledStep(nodes[..n], k, i, random);
      var j := Pick(random, i + 1);
      SwapIn(nodes, n, i, j);
      k, i := i, i - 1;
    }
  }

  method SwapIn<T>(a: array<T>, n: nat, i: nat, j: nat)
    requires i < n <= a.Length && j < n
    modifies a
    ensures a[..n] == Swapped(old(a[..n]), i, j) && a[n..] == old(a[n..])
  {
    a[i], a[j] := a[j], a[i];
  }

  /** Partitions the list in place, cuts it and shuffles the front. */
  method SortedOut(nodes: seq<NodeState>, random: nat -> nat) returns (live: seq<NodeState>, dead: seq<NodeState>)
    ensures multiset(live + dead) == multiset(nodes)
    ensures NoneDead(live) && AllDead(dead)
  {
    var list := new NodeState[|nodes|](i requires 0 <= i < |nodes| => nodes[i]);
    assert list[..] == nodes;
    var deadIdx := MoveDeadNodes(list);
    assert list[..] == list[..deadIdx] + list[deadIdx..];
    dead := list[deadIdx..];
    ghost var front := list[..deadIdx];
    ShuffledIsPermuted(front, deadIdx, random);
    ShuffleNodes(list, deadIdx, random);
    live := list[..deadIdx];
    forall x | x in live ensures x in front {
      assert x in multiset(live);
      assert x in multiset(front);
    }
  }

  method WithoutNames(nodeMap: map<string, NodeState>, dead: seq<NodeState>) returns (m: map<string, NodeState>)
    ensures forall n :: n in m <==> n in nodeMap && n !in Names(dead)
    ensures forall n :: n in m ==> m[n] == nodeMap[n]
  {
    m := nodeMap;
    for i := 0 to |dead|
      invariant forall n :: n in m <==> n in nodeMap && n !in Names(dead)[..i]
      invariant forall n :: n in m ==> m[n] == nodeMap[n]
    {
      m := m - {dead[i].name};
      PrefixStep(Names(dead), i);
    }
    PrefixEnd(Names(dead));
  }

  lemma {:induction false} MergeUnfolds(s: State, s': State, remote: seq<Remote>, i: nat, random: nat -> nat)
    requires i < |remote| && s.mode == Running
    requires s' == Membership.MergeOne(s, remote[i], random(|remote| - i))
    ensures Membership.MergeState(s, remote[i..], random) == Membership.MergeState(s', remote[i + 1..], random)
  {
    assert remote[i..][1..] == remote[i + 1..];
  }

  lemma {:induction false} SnapshotAppend(s: State, order: seq<string>, n: string)
    requires n in s.table && forall m :: m in order ==> m in s.table
    ensures Snapshot(s, order + [n]) == Snapshot(s, order) + [Exported(n, s.table[n])]
  {
    if order == [] {
      assert [n][1..] == [];
    } else {
      SnapshotAppend(s, order[1..], n);
      assert (order + [n])[1..] == order[1..] + [n];
    }
  }

  /** List and map hold the same records, each once and under its own name. */
  ghost predicate Agreement(nodes: seq<NodeState>, nodeMap: map<string, NodeState>, numNodes: uint32) {
    && (forall n :: n in nodeMap ==> nodeMap[n].name == n && nodeMap[n] in nodes)
    && (forall x :: x in nodes ==> x.name in nodeMap && nodeMap[x.name] == x)
    && DistinctNames(nodes)
    && numNodes == |nodes| % 0x1_0000_0000
  }

  lemma {:induction false} AgreementAfterAdding(nodes: seq<NodeState>, nodeMap: map<string, NodeState>,
      numNodes: uint32,
                             state: NodeState, offset: nat)
    requires Agreement(nodes, nodeMap, numNodes) && state.name !in nodeMap && offset <= |nodes|
    ensures Agreement(Swapped(nodes + [state], offset, |nodes|), nodeMap[state.name := state],
                      (numNodes + 1) % 0x1_0000_0000)
    ensures forall x :: x in Swapped(nodes + [state], offset, |nodes|) <==> x == state || x in nodes
  {
    var list := nodes + [state];
    MembersOfSwapped(list, offset, |nodes|);
    assert forall x :: x in list <==> x == state || x in nodes;
    DistinctAfterAdding(nodes, state, offset);
    AgreementWith(nodes, nodeMap, numNodes, state, Swapped(list, offset, |nodes|));
  }

  lemma {:induction false} AgreementWith(nodes: seq<NodeState>, nodeMap: map<string, NodeState>, numNodes: uint32,
                      state: NodeState, r: seq<NodeState>)
    requires Agreement(nodes, nodeMap, numNodes) && state.name !in nodeMap
    requires |r| == |nodes| + 1 && DistinctNames(r)
    requires forall x :: x in r <==> x == state || x in nodes
    ensures Agreement(r, nodeMap[state.name := state], (numNodes + 1) % 0x1_0000_0000)
  {
    var m := nodeMap[state.name := state];
    CountedUp(|nodes|);
    forall n | n in m ensures m[n].name == n && m[n] in r {
    }
    forall x | x in r ensures x.name in m && m[x.name] == x {
    }
  }

  lemma {:induction false} NamesMembers(nodes: seq<NodeState>)
    ensures forall n :: n in Names(nodes) <==> exists x :: x in nodes && x.name == n
  {
    var names := Names(nodes);
    forall n | n in names ensures exists x :: x in nodes && x.name == n {
      var i :| 0 <= i < |names| && names[i] == n;
      assert nodes[i] in nodes;
    }
    forall x | x in nodes ensures x.name in names {
      var i :| 0 <= i < |nodes| && nodes[i] == x;
      assert names[i] == x.name;
    }
  }

  lemma {:induction false} NamesAreKeysOf(nodes: seq<NodeState>, nodeMap: map<string, NodeState>)
    requires forall n :: n in nodeMap ==> nodeMap[n].name == n && nodeMap[n] in nodes
    requires forall x :: x in nodes ==> x.name in nodeMap && nodeMap[x.name] == x
    ensures forall n :: n in Names(nodes) <==> n in nodeMap
  {
    NamesMembers(nodes);
  }

  lemma SameMembers<T>(a: seq<T>, b: seq<T>)
    requires NoDuplicates(a) && NoDuplicates(b) && forall x :: x in a <==> x in b
    ensures multiset(a) == multiset(b)
  {
    forall x ensures multiset(a)[x] == multiset(b)[x] {
      OccursOnce(a, x);
      OccursOnce(b, x);
      assert x in a <==> x in multiset(a);
      assert x in b <==> x in multiset(b);
    }
  }

  lemma SurvivingNames(was: map<string, Entry>, order: seq<string>, table: map<string, Entry>, names: seq<string>)
    requires NoDuplicates(order) && NoDuplicates(names) && table == WithoutDead(was)
    requires (forall n :: n in order <==> n in was) && (forall n :: n in names <==> n in table)
    ensures multiset(names) == multiset(Survivors(was, order))
  {
    SurvivorsAre(was, order);
    SameMembers(names, Survivors(was, order));
  }

  /** The parts of a permuted list: what is in one is exactly what is not in the other. */
  lemma {:induction false} Partition(nodes: seq<NodeState>, live: seq<NodeState>, dead: seq<NodeState>)
    requires DistinctNames(nodes) && multiset(live + dead) == multiset(nodes)
    ensures DistinctNames(live)
    ensures forall x :: x in live <==> x in nodes && x !in dead
    ensures forall x :: x in dead ==> x in nodes
  {
    var all := live + dead;
    assert NoDuplicates(nodes);
    PermutationHasNoDuplicates(nodes, all);
    forall x | x in live ensures x !in dead {
      var i :| 0 <= i < |live| && live[i] == x;
      assert forall j :: 0 <= j < |dead| ==> dead[j] == all[|live| + j];
      assert all[i] == x;
    }
    forall i, j | 0 <= i < j < |live| ensures live[i].name != live[j].name {
      assert live[i] in all && live[j] in all && all[i] != all[j];
      NamesAreKeys(nodes, live[i], live[j]);
    }
  }

  lemma {:induction false} NamesAreKeys(nodes: seq<NodeState>, x: NodeState, y: NodeState)
    requires DistinctNames(nodes) && x in nodes && y in nodes && x != y
    ensures x.name != y.name
  {
  }

  lemma {:induction false} AgreementAfterReaping(nodes: seq<NodeState>, nodeMap: map<string, NodeState>,
      numNodes: uint32,
                              live: seq<NodeState>, dead: seq<NodeState>, m: map<string, NodeState>)
    requires Agreement(nodes, nodeMap, numNodes) && DistinctNames(live)
    requires forall x :: x in live <==> x in nodes && x !in dead
    requires forall x :: x in dead ==> x in nodes
    requires forall n :: n in m <==> n in nodeMap && n !in Names(dead)
    requires forall n :: n in m ==> m[n] == nodeMap[n]
    ensures Agreement(live, m, |live| % 0x1_0000_0000)
    ensures forall n :: n in nodeMap && n !in m ==> nodeMap[n] in dead
  {
    NamesMembers(dead);
    forall n | n in m ensures m[n].name == n && m[n] in live {
      assert m[n] in nodes;
    }
    forall x | x in live ensures x.name in m && m[x.name] == x {
    }
    forall n | n in nodeMap && n !in m ensures nodeMap[n] in dead {
      var x :| x in dead && x.name == n;
      assert nodeMap[x.name] == x;
    }
  }

  lemma PrefixStep<T>(list: seq<T>, i: nat)
    requires i < |list|
    ensures list[..i + 1] == list[..i] + [list[i]]
  {
  }

  lemma PrefixEnd<T>(list: seq<T>)
    ensures list[..|list|] == list
  {
  }

  ghost predicate DistinctNames(nodes: seq<NodeState>) {
    forall i, j :: 0 <= i < j < |nodes| ==> nodes[i].name != nodes[j].name
  }

  lemma {:induction false} NamesOfAppended(nodes: seq<NodeState>, x: NodeState)
    ensures Names(nodes + [x]) == Names(nodes) + [x.name]
  {
  }

  lemma {:induction false} NamesOfSwapped(list: seq<NodeState>, i: nat, j: nat)
    requires i < |list| && j < |list|
    ensures Names(Swapped(list, i, j)) == Swapped(Names(list), i, j)
  {
    var a, b := Names(Swapped(list, i, j)), Swapped(Names(list), i, j);
    assert |a| == |b| && forall k :: 0 <= k < |list| ==> a[k] == b[k];
  }

  lemma MembersOfSwapped<T>(list: seq<T>, i: nat, j: nat)
    requires i < |list| && j < |list|
    ensures forall x :: x in Swapped(list, i, j) <==> x in list
  {
    var r := Swapped(list, i, j);
    forall k | 0 <= k < |list| ensures list[k] in r {
      assert r[if k == i then j else if k == j then i else k] == list[k];
    }
  }

  lemma {:induction false} DistinctAfterAdding(nodes: seq<NodeState>, state: NodeState, offset: nat)
    requires DistinctNames(nodes) && offset <= |nodes|
    requires forall x :: x in nodes ==> x.name != state.name
    ensures DistinctNames(Swapped(nodes + [state], offset, |nodes|))
    ensures Names(Swapped(nodes + [state], offset, |nodes|)) == Swapped(Names(nodes) + [state.name], offset, |nodes|)
  {
    var r := Swapped(nodes + [state], offset, |nodes|);
    var names := Names(nodes);
    NamesOfAppended(nodes, state);
    NamesOfSwapped(nodes + [state], offset, |nodes|);
    assert NoDuplicates(names);
    forall i | 0 <= i < |names| ensures names[i] != state.name {
      assert nodes[i] in nodes;
    }
    AppendKeepsList(names, state.name, offset);
    forall i, j | 0 <= i < j < |r| ensures r[i].name != r[j].name {
      assert Names(r)[i] != Names(r)[j];
    }
  }

  function Names(nodes: seq<NodeState>): (names: seq<string>)
    ensures |names| == |nodes|
  {
    seq(|nodes|, i requires 0 <= i < |nodes| => nodes[i].name)
  }
}
