/** The local node: how it refutes, what it announces about itself, and how it leaves. */
module MembershipSelf {
  import opened Bytes
  import opened Wrappers
  import opened Membership
  import opened MembershipProofs

  /** The incarnations of the alive broadcasts about a node, oldest first. */
  function Announcements(log: seq<Broadcast>, node: string): seq<uint32> {
    if log == [] then []
    else
      var last := log[|log| - 1];
      Announcements(log[..|log| - 1], node)
      + if last.AliveB? && last.alive.node == node then [last.alive.inc] else []
  }

  lemma {:induction false} AnnouncementsAppend(log: seq<Broadcast>, b: Broadcast, node: string)
    ensures Announcements(log + [b], node) ==
      if b.AliveB? && b.alive.node == node then Announcements(log, node) + [b.alive.inc]
      else Announcements(log, node)
  {
    assert (log + [b])[..|log|] == log;
  }

  function Announced(s: State): seq<uint32> {
    Announcements(s.log, s.self)
  }

  predicate Live(s: State) {
    s.self in s.table && s.table[s.self].status == Alive
  }

  ghost predicate NonDecreasing(incs: seq<uint32>) {
    forall i, j :: 0 <= i < j < |incs| ==> incs[i] <= incs[j]
  }

  ghost predicate Increasing(incs: seq<uint32>) {
    forall i, j :: 0 <= i < j < |incs| ==> incs[i] < incs[j]
  }

  /** The last number announced is this one. */
  predicate EndsWith(incs: seq<uint32>, inc: uint32) {
    incs != [] && incs[|incs| - 1] == inc
  }

  /** Holds in every reachable state, even when the counter wraps around. */
  ghost predicate LocalOk(s: State) {
    && OwnUpdates(s)
    && (s.self in s.table ==> s.table[s.self].status != Suspect)
    && (s.leave || Live(s))
    && NonDecreasing(Announced(s))
    && (Live(s) ==> EndsWith(Announced(s), s.table[s.self].inc))
  }

  /** How a step can treat the local entry: say nothing, announce a number, or die after Leave. */
  ghost predicate Silent(s: State, s': State) {
    && s'.self == s.self && Announced(s') == Announced(s)
    && (Live(s') ==> Live(s) && s'.table[s'.self].inc == s.table[s.self].inc)
  }

  ghost predicate Speaks(s: State, s': State, inc: uint32) {
    && s'.self == s.self && Live(s) && Live(s') && s'.table[s'.self].inc == inc
    && Announced(s') == Announced(s) + [inc]
  }

  /** A new number was drawn; it is larger unless the counter ran through. */
  predicate Drawn(s: State, s': State) {
    s.counter < Max32 ==> s.counter < s'.counter
  }

  lemma RefuteSpeaks(s: State, claim: uint32)
    requires Live(s)
    ensures var s' := Refute(s, s.table[s.self], claim);
      match NextAbove(s.counter, claim)
      case None => s'.mode == Spinning && Silent(s, s')
      case Some(inc) => inc > claim && Speaks(s, s', inc) && s'.counter == inc && Drawn(s, s')
  {
    if claim < Max32 {
      var e, inc := s.table[s.self], NextAbove(s.counter, claim).value;
      AnnouncementsAppend(s.log, AliveB(AliveMsg(inc, s.self, e.addr, e.port, e.meta, e.vsn)), s.self);
    }
  }

  lemma AliveSpeaks(s: State, a: AliveMsg, random: nat)
    requires LocalOk(s) && a.node == s.self
    ensures var s' := AliveNode(s, a, false, random);
      Silent(s, s')
      || (Live(s) && Speaks(s, s', s'.counter) && Drawn(s, s') && s'.counter > a.inc >= s.table[s.self].inc)
  {
    if !s.leave && a.inc >= s.table[s.self].inc {
      RefuteSpeaks(s, a.inc);
    }
  }

  lemma AliveOfOtherFrame(s: State, a: AliveMsg, random: nat)
    requires a.node != s.self
    ensures var s' := AliveNode(s, a, false, random);
      && s'.self == s.self && (s'.log == s.log || s'.log == s.log + [AliveB(a)])
      && (s.self in s'.table <==> s.self in s.table)
      && (s.self in s.table ==> s'.table[s.self] == s.table[s.self])
  {
  }

  lemma AliveOfOtherIsSilent(s: State, a: AliveMsg, random: nat)
    requires a.node != s.self
    ensures Silent(s, AliveNode(s, a, false, random))
  {
    AliveOfOtherFrame(s, a, random);
    AnnouncementsAppend(s.log, AliveB(a), s.self);
  }

  lemma UpdateSpeaks(s: State, i: nat)
    requires LocalOk(s) && i < |s.updates|
    ensures var s' := ApplyUpdate(s, i);
      && s'.mode == s.mode
      && (Silent(s, s') || (Live(s) && Speaks(s, s', s.updates[i].inc) && s.updates[i].inc >= s.table[s.self].inc))
  {
    var a := s.updates[i];
    assert a in s.updates;
    AnnouncementsAppend(s.log, AliveB(a), s.self);
  }

  lemma SuspicionIsSilent(s: State, e: Entry, c: Claim)
    requires c.node != s.self
    ensures Silent(s, Suspicion(s, e, c))
  {
    AnnouncementsAppend(s.log, SuspectB(c), s.self);
  }

  lemma DeathIsSilent(s: State, e: Entry, c: Claim)
    ensures Silent(s, Death(s, e, c))
  {
    AnnouncementsAppend(s.log, DeadB(c), s.self);
  }

  lemma SuspectSpeaks(s: State, c: Claim)
    requires LocalOk(s)
    ensures var s' := SuspectNode(s, c);
      Silent(s, s')
      || (Live(s) && c.node == s.self && Speaks(s, s', s'.counter) && Drawn(s, s')
          && s'.counter > c.inc >= s.table[s.self].inc)
  {
    if c.node in s.table {
      if c.node != s.self {
        SuspicionIsSilent(s, s.table[c.node], c);
      } else if Live(s) && c.inc >= s.table[s.self].inc {
        RefuteSpeaks(s, c.inc);
      }
    }
  }

  lemma DeadSpeaks(s: State, c: Claim)
    requires LocalOk(s)
    ensures var s' := DeadNode(s, c);
      Silent(s, s')
      || (Live(s) && c.node == s.self && !s.leave && Speaks(s, s', s'.counter) && Drawn(s, s')
          && s'.counter > c.inc >= s.table[s.self].inc)
  {
    if c.node in s.table {
      if c.node != s.self || s.leave {
        DeathIsSilent(s, s.table[c.node], c);
      } else if c.inc >= s.table[s.self].inc {
        RefuteSpeaks(s, c.inc);
      }
    }
  }

  /** The claim about the local node that an event carries. */
  function ClaimAnswered(e: Event, self: string): Option<uint32> {
    match e
    case Receive(a, _) => if a.node == self then Some(a.inc) else None
    case Suspected(c) => if c.node == self then Some(c.inc) else None
    case Died(c) => if c.node == self then Some(c.inc) else None
    case _ => None
  }

  /** Every announcement answers a claim with a higher number, or carries out an UpdateNode call. */
  lemma StepSpeaks(s: State, e: Event)
    requires LocalOk(s) && Enabled(s, e)
    ensures var s' := Step(s, e);
      Silent(s, s') ||
      match e
      case Update(i) => Live(s) && Speaks(s, s', s.updates[i].inc) && s.updates[i].inc >= s.table[s.self].inc
      case _ =>
        && ClaimAnswered(e, s.self).Some?
        && Live(s) && Speaks(s, s', s'.counter) && Drawn(s, s')
        && s'.counter > ClaimAnswered(e, s.self).value >= s.table[s.self].inc
  {
    match e
    case Receive(a, random) =>
      if a.node == s.self {
        AliveSpeaks(s, a, random);
      } else {
        AliveOfOtherIsSilent(s, a, random);
      }
    case Suspected(c) => SuspectSpeaks(s, c);
    case Died(c) => DeadSpeaks(s, c);
    case Update(i) => UpdateSpeaks(s, i);
    case Fired(t) =>
      if Membership.Current(s, t) {
        DeadSpeaks(s.(timers := s.timers - {t}), Claim(s.table[t.node].inc, t.node, s.self));
      }
    case Left => DeadSpeaks(s.(departing := None), s.departing.value);
    case _ =>
  }

  lemma SpeakingKeepsOrder(s: State, s': State, inc: uint32)
    requires LocalOk(s) && Live(s) && Speaks(s, s', inc) && s.table[s.self].inc <= inc
    ensures Live(s') && NonDecreasing(Announced(s')) && EndsWith(Announced(s'), s'.table[s'.self].inc)
  {
  }

  /** A step hangs in a refutation exactly on a claim of 2^32 - 1 that has to be refuted. */
  lemma SpinsIff(s: State, e: Event)
    requires LocalOk(s) && Enabled(s, e)
    ensures Step(s, e).mode == Spinning <==>
      && ClaimAnswered(e, s.self) == Some(Max32) && Live(s)
      && match e
         case Receive(a, _) =>
           var mine := s.table[s.self];
           && !s.leave && mine.addr == a.addr && mine.port == a.port
           && !(mine.inc == a.inc && mine.meta == a.meta && mine.vsn == a.vsn)
         case Suspected(_) => true
         case _ => !s.leave
  {
    if e.Update? {
      assert s.updates[e.i] in s.updates;
    }
  }

  /** A step crashes exactly when it accepts an alive message about another node with one to five version bytes, or
      takes a number for an UpdateNode call without a local entry. */
  lemma CrashesIff(s: State, e: Event)
    requires LocalOk(s) && Enabled(s, e)
    ensures Step(s, e).mode == Crashed <==>
      match e
      case Receive(a, _) =>
        && a.node != s.self && 0 < |a.vsn| < 6
        && (if a.node !in s.table then a.inc > 0
            else var known := s.table[a.node];
              known.addr == a.addr && known.port == a.port && known.inc < a.inc)
      case Take(_, _) => s.self !in s.table
      case _ => false
  {
    match e
    case Receive(a, random) => AliveCrashesIff(s, a, random);
    case Update(i) => assert s.updates[i] in s.updates;
    case _ =>
  }

  lemma AliveCrashesIff(s: State, a: AliveMsg, random: nat)
    requires LocalOk(s) && s.mode == Running
    ensures AliveNode(s, a, false, random).mode == Crashed <==>
      && a.node != s.self && 0 < |a.vsn| < 6
      && (if a.node !in s.table then a.inc > 0
          else var known := s.table[a.node];
            known.addr == a.addr && known.port == a.port && known.inc < a.inc)
  {
  }

  /** Without leaving, the local entry stays; with or without, it is never suspect. */
  ghost predicate Present(s: State, s': State) {
    && (s'.self in s'.table ==> s'.table[s'.self].status != Suspect)
    && (s'.leave || Live(s'))
    && (s.leave ==> s'.leave)
  }

  lemma AliveKeepsPresent(s: State, a: AliveMsg, bootstrap: bool, random: nat)
    requires Present(s, s)
    ensures Present(s, AliveNode(s, a, bootstrap, random))
  {
  }

  lemma StepKeepsPresent(s: State, e: Event)
    requires LocalOk(s) && Enabled(s, e)
    ensures Present(s, Step(s, e))
  {
    match e
    case Receive(a, random) => AliveKeepsPresent(s, a, false, random);
    case Update(i) => AliveKeepsPresent(s.(updates := s.updates[..i] + s.updates[i + 1..]), s.updates[i], true, 0);
    case _ =>
  }

  lemma StepKeepsLocalOk(s: State, e: Event)
    requires LocalOk(s) && Enabled(s, e)
    ensures LocalOk(Step(s, e))
  {
    var s' := Step(s, e);
    StepKeepsOwnUpdates(s, e);
    StepKeepsPresent(s, e);
    StepSpeaks(s, e);
    if !Silent(s, s') {
      SpeakingKeepsOrder(s, s', if e.Update? then s.updates[e.i].inc else s'.counter);
    }
  }

  lemma InitialIsLocalOk(s: State)
    requires Initial(s)
    ensures LocalOk(s)
  {
    InitialAnnounces(s);
  }

  lemma InitialAnnounces(s: State)
    requires Initial(s)
    ensures Announced(s) == [1]
  {
    assert s.log == [] + s.log;
    AnnouncementsAppend([], s.log[0], s.self);
  }

  lemma {:induction false} RunKeepsLocalOk(states: seq<State>, events: seq<Event>, k: nat)
    requires Run(states, events) && k < |states|
    ensures LocalOk(states[k])
  {
    if k == 0 {
      InitialIsLocalOk(states[0]);
    } else {
      RunKeepsLocalOk(states, events, k - 1);
      StepKeepsLocalOk(states[k - 1], events[k - 1]);
    }
  }

  // ----- Strictly increasing announcements

  /** As long as the counter has not run through, every number handed out is new. */
  ghost predicate FreshNumbers(s: State) {
    && (Live(s) ==> s.table[s.self].inc <= s.counter)
    && FreshUpdates(s.updates, s.counter)
    && (Live(s) ==> forall i :: 0 <= i < |s.updates| ==> s.updates[i].inc != s.table[s.self].inc)
    && Increasing(Announced(s))
  }

  ghost predicate FreshUpdates(updates: seq<AliveMsg>, counter: uint32) {
    && (forall i :: 0 <= i < |updates| ==> updates[i].inc <= counter)
    && (forall i, j :: 0 <= i < j < |updates| ==> updates[i].inc != updates[j].inc)
  }

  lemma AliveDraws(s: State, a: AliveMsg, bootstrap: bool, random: nat)
    ensures var s' := AliveNode(s, a, bootstrap, random);
      s'.updates == s.updates && (s.counter < Max32 ==> s.counter <= s'.counter)
  {
  }

  lemma StepDraws(s: State, e: Event)
    requires LocalOk(s) && Enabled(s, e) && s.counter < Max32
    ensures var s' := Step(s, e);
      && s.counter <= s'.counter
      && match e
         case Take(meta, vsn) =>
           || s'.updates == s.updates
           || (|s'.updates| == |s.updates| + 1 && s'.updates[..|s.updates|] == s.updates
               && s'.updates[|s.updates|].inc == s'.counter > s.counter)
         case Update(i) => s'.updates == s.updates[..i] + s.updates[i + 1..]
         case _ => s'.updates == s.updates
  {
    match e
    case Receive(a, random) => AliveDraws(s, a, false, random);
    case Update(i) => AliveDraws(s.(updates := s.updates[..i] + s.updates[i + 1..]), s.updates[i], true, 0);
    case _ =>
  }

  /** A number is drawn behind the last one: for an UpdateNode call, or to refute a claim. */
  predicate Wraps(s: State, e: Event)
    requires Enabled(s, e)
  {
    s.counter == Max32 && if e.Take? then s.self in s.table
                         else !e.Update? && |Announced(Step(s, e))| > |Announced(s)|
  }

  /** At the last number nothing but a wrap draws. */
  lemma LastNumberStays(s: State, e: Event)
    requires LocalOk(s) && Enabled(s, e) && s.counter == Max32 && !Wraps(s, e)
    ensures var s' := Step(s, e);
      && s'.counter == Max32
      && s'.updates == if e.Update? then s.updates[..e.i] + s.updates[e.i + 1..] else s.updates
  {
    match e
    case Receive(a, random) => MessageDraws(s, a, random);
    case Suspected(c) => ClaimDraws(s, c);
    case Died(c) => ClaimDraws(s, c);
    case Update(i) => UpdateDrawsNothing(s, i);
    case _ => OthersDrawNothing(s, e);
  }

  lemma MessageDraws(s: State, a: AliveMsg, random: nat)
    requires LocalOk(s) && s.counter == Max32
    ensures var s' := AliveNode(s, a, false, random);
      s'.updates == s.updates && (s'.counter == Max32 || |Announced(s')| > |Announced(s)|)
  {
    if a.node == s.self && !s.leave && a.inc >= s.table[s.self].inc {
      RefuteSpeaks(s, a.inc);
    }
  }

  lemma UpdateDrawsNothing(s: State, i: nat)
    requires LocalOk(s) && i < |s.updates|
    ensures ApplyUpdate(s, i).counter == s.counter
    ensures ApplyUpdate(s, i).updates == s.updates[..i] + s.updates[i + 1..]
  {
    assert s.updates[i] in s.updates;
  }

  lemma OthersDrawNothing(s: State, e: Event)
    requires LocalOk(s) && Enabled(s, e) && (e.Fired? || e.Reset? || e.Take? || e.Leaving? || e.Left?)
    requires e.Take? ==> s.self !in s.table
    ensures Step(s, e).counter == s.counter && Step(s, e).updates == s.updates
  {
  }

  lemma ClaimDraws(s: State, c: Claim)
    requires LocalOk(s) && s.counter == Max32
    ensures var s' := SuspectNode(s, c);
      s'.updates == s.updates && (s'.counter == Max32 || |Announced(s')| > |Announced(s)|)
    ensures var s' := DeadNode(s, c);
      s'.updates == s.updates && (s'.counter == Max32 || |Announced(s')| > |Announced(s)|)
  {
    if c.node == s.self && Live(s) {
      RefuteSpeaks(s, c.inc);
    }
  }

  lemma StepKeepsFreshNumbers(s: State, e: Event)
    requires LocalOk(s) && FreshNumbers(s) && Enabled(s, e) && !Wraps(s, e)
    ensures FreshNumbers(Step(s, e))
  {
    StepSpeaks(s, e);
    if s.counter < Max32 {
      StepDraws(s, e);
    } else {
      LastNumberStays(s, e);
    }
    FreshAfter(s, e, Step(s, e));
  }

  lemma FreshAfter(s: State, e: Event, s': State)
    requires LocalOk(s) && FreshNumbers(s) && s.counter <= s'.counter
    requires e.Update? ==> e.i < |s.updates|
    requires Silent(s, s') || (Live(s) && Speaks(s, s', if e.Update? then s.updates[e.i].inc else s'.counter)
                               && s'.table[s'.self].inc >= s.table[s.self].inc)
    requires Silent(s, s') || e.Update? || s.counter < s'.counter
    requires match e
      case Take(_, _) =>
        || s'.updates == s.updates
        || (Silent(s, s') && |s'.updates| == |s.updates| + 1 && s'.updates[..|s.updates|] == s.updates
            && s'.updates[|s.updates|].inc == s'.counter > s.counter)
      case Update(i) => s'.updates == s.updates[..i] + s.updates[i + 1..]
      case _ => s'.updates == s.updates
    ensures FreshNumbers(s')
  {
    if e.Take? && s'.updates != s.updates {
      UpdatesAppended(s.updates, s'.updates, s.counter, s'.counter);
    } else if e.Update? {
      UpdateRemoved(s.updates, e.i, s.counter, s'.counter);
    }
    if !Silent(s, s') {
      SpokenIncreases(s, s', if e.Update? then s.updates[e.i].inc else s'.counter);
    }
  }

  lemma SpokenIncreases(s: State, s': State, inc: uint32)
    requires LocalOk(s) && Increasing(Announced(s)) && Live(s) && Speaks(s, s', inc)
    requires s.table[s.self].inc < inc
    ensures Increasing(Announced(s'))
  {
  }

  lemma {:induction false} UpdatesAppended(was: seq<AliveMsg>, now: seq<AliveMsg>, counter: uint32, counter': uint32)
    requires FreshUpdates(was, counter) && counter < counter'
    requires |now| == |was| + 1 && now[..|was|] == was && now[|was|].inc == counter'
    ensures FreshUpdates(now, counter')
    ensures forall i :: 0 <= i < |was| ==> now[i] == was[i]
  {
    assert forall i :: 0 <= i < |was| ==> now[i] == now[..|was|][i];
  }

  lemma {:induction false} UpdateRemoved(was: seq<AliveMsg>, i: nat, counter: uint32, counter': uint32)
    requires FreshUpdates(was, counter) && counter <= counter' && i < |was|
    ensures FreshUpdates(was[..i] + was[i + 1..], counter')
    ensures forall u :: u in was[..i] + was[i + 1..] ==> u.inc != was[i].inc && u in was
  {
  }

  /** While no number is drawn behind the last one, the incarnations a node announces about itself strictly
      increase over every interleaving of UpdateNode calls, refutations and messages. */
  lemma {:induction false} AnnouncementsIncrease(states: seq<State>, events: seq<Event>, k: nat)
    requires Run(states, events) && k < |states|
    requires forall i :: 0 <= i < k ==> !Wraps(states[i], events[i])
    ensures FreshNumbers(states[k])
  {
    if k == 0 {
      InitialAnnounces(states[0]);
    } else {
      AnnouncementsIncrease(states, events, k - 1);
      RunKeepsLocalOk(states, events, k - 1);
      StepKeepsFreshNumbers(states[k - 1], events[k - 1]);
    }
  }

  /** A pending update takes effect with the number that was announced last. */
  predicate Repeats(s: State, e: Event)
    requires Enabled(s, e)
  {
    e.Update? && !s.leave && s.self in s.table
    && var a, mine := s.updates[e.i], s.table[s.self];
       a.addr == mine.addr && a.port == mine.port && a.inc == mine.inc
  }

  lemma NothingAfterARepeat(incs: seq<uint32>, more: seq<uint32>)
    requires incs <= more && Increasing(more)
    ensures Increasing(incs)
  {
  }

  lemma StepIncreasesIff(s: State, e: Event)
    requires LocalOk(s) && Enabled(s, e)
    ensures Increasing(Announced(Step(s, e))) <==> Increasing(Announced(s)) && !Repeats(s, e)
  {
    var s' := Step(s, e);
    StepSpeaks(s, e);
    if Repeats(s, e) {
      assert s.updates[e.i] in s.updates;
      UpdateAnnounces(s, e.i);
      var incs := Announced(s');
      assert incs[|incs| - 2] == incs[|incs| - 1];
    } else if !Silent(s, s') {
      SpokenLater(s, e);
      NothingAfterARepeatIff(Announced(s), Announced(s'));
    }
  }

  /** Any announcement but a repeated one is higher than the one before it. */
  lemma SpokenLater(s: State, e: Event)
    requires LocalOk(s) && Enabled(s, e) && !Repeats(s, e) && !Silent(s, Step(s, e))
    ensures var s' := Step(s, e);
      && |Announced(s')| == |Announced(s)| + 1 && Announced(s) <= Announced(s') && Announced(s) != []
      && Announced(s)[|Announced(s)| - 1] < Announced(s')[|Announced(s)|]
  {
    StepSpeaks(s, e);
    if e.Update? {
      assert s.updates[e.i] in s.updates;
    }
  }

  lemma NothingAfterARepeatIff(incs: seq<uint32>, more: seq<uint32>)
    requires |more| == |incs| + 1 && incs <= more && incs != [] && incs[|incs| - 1] < more[|incs|]
    ensures Increasing(more) <==> Increasing(incs)
  {
    if Increasing(incs) {
      forall i, j | 0 <= i < j < |more| ensures more[i] < more[j] {
        assert incs[i] == more[i];
        if j < |incs| {
          assert incs[j] == more[j];
        }
      }
    }
    if Increasing(more) {
      NothingAfterARepeat(incs, more);
    }
  }

  ghost predicate NothingRepeats(states: seq<State>, events: seq<Event>, k: nat)
    requires Trace(states, events) && k <= |events|
  {
    forall i {:trigger events[i]} :: 0 <= i < k ==> !Repeats(states[i], events[i])
  }

  lemma {:induction false} NothingRepeatsStep(states: seq<State>, events: seq<Event>, j: nat, k: nat)
    requires Trace(states, events) && k <= |events| && k == j + 1
    ensures Enabled(states[j], events[j]) && states[k] == Step(states[j], events[j])
    ensures NothingRepeats(states, events, k) <==>
            NothingRepeats(states, events, j) && !Repeats(states[j], events[j])
  {
  }

  /** In any run, wrapping or not, the announcements strictly increase exactly when no update was applied while the
      number it held was the current one already. */
  lemma {:induction false} IncreaseIffNothingRepeats(states: seq<State>, events: seq<Event>, k: nat)
    requires Run(states, events) && k < |states|
    ensures Increasing(Announced(states[k])) <==> NothingRepeats(states, events, k)
  {
    if k == 0 {
      InitialAnnounces(states[0]);
    } else {
      var j := k - 1;
      IncreaseIffNothingRepeats(states, events, j);
      RunKeepsLocalOk(states, events, j);
      NothingRepeatsStep(states, events, j, k);
      StepIncreasesIff(states[j], events[j]);
    }
  }

  lemma SuspicionIsRefuted(s: State, c: Claim, inc: uint32)
    requires Live(s) && c.node == s.self && s.table[s.self].inc <= c.inc && NextAbove(s.counter, c.inc) == Some(inc)
    ensures var s' := SuspectNode(s, c);
      && s'.self == s.self && s'.mode == s.mode && s'.updates == s.updates && s'.leave == s.leave
      && s'.counter == inc && Live(s') && s'.table[s.self] == s.table[s.self].(inc := inc)
      && Announced(s') == Announced(s) + [inc]
  {
    RefuteSpeaks(s, c.inc);
  }

  lemma NumberIsTaken(s: State, meta: seq<byte>, vsn: seq<byte>, inc: uint32)
    requires Live(s) && inc == Successor(s.counter)
    ensures var s', e := TakeUpdate(s, meta, vsn), s.table[s.self];
      && s'.self == s.self && s'.mode == s.mode && s'.leave == s.leave && s'.counter == inc
      && s'.table == s.table && s'.log == s.log
      && s'.updates == s.updates + [AliveMsg(inc, s.self, e.addr, e.port, meta, vsn)]
  {
  }

  /** The last number is taken for an UpdateNode call that has not been applied yet. */
  predicate LastNumberPending(s: State) {
    && s.mode == Running && Live(s) && !s.leave && s.counter == Max32 && s.table[s.self].inc < Max32
    && |s.updates| == 1 && s.updates[0].node == s.self && s.updates[0].inc == Max32 && |s.updates[0].vsn| == 6
    && s.updates[0].addr == s.table[s.self].addr && s.updates[0].port == s.table[s.self].port
  }

  lemma LastNumberIsTaken(s: State, c: Claim, meta: seq<byte>, vsn: seq<byte>)
    requires Initial(s) && |vsn| == 6 && c.node == s.self && c.inc == Max32 - 2
    ensures var s1 := SuspectNode(s, c);
      && s1.mode == Running && LastNumberPending(TakeUpdate(s1, meta, vsn))
      && TakeUpdate(s1, meta, vsn).self == s.self
      && Announced(TakeUpdate(s1, meta, vsn)) == Announced(s) + [Max32 - 1]
  {
    SuspicionIsRefuted(s, c, Max32 - 1);
    NumberIsTaken(SuspectNode(s, c), meta, vsn, Max32);
  }

  lemma LastNumberIsRepeated(s: State, c: Claim)
    requires LastNumberPending(s) && c.node == s.self && c.inc == Max32 - 1
    ensures var s1 := SuspectNode(s, c);
      && s1.mode == Running && |s1.updates| == 1
      && Announced(ApplyUpdate(s1, 0)) == Announced(s) + [Max32] + [Max32]
  {
    SuspicionIsRefuted(s, c, Max32);
    UpdateAnnounces(SuspectNode(s, c), 0);
  }

  /** A run in which the counter wraps around to a number that an UpdateNode call still holds: it is announced
      twice. */
  lemma LastNumberIsAnnouncedTwice(s: State, meta: seq<byte>, vsn: seq<byte>, from: string)
    returns (states: seq<State>, events: seq<Event>)
    requires Initial(s) && |vsn| == 6
    ensures Run(states, events) && states[0] == s
    ensures |states| == 5 && Announced(states[4]) == [1, Max32 - 1, Max32, Max32]
  {
    var c1, c2 := Claim(Max32 - 2, s.self, from), Claim(Max32 - 1, s.self, from);
    InitialAnnounces(s);
    LastNumberIsTaken(s, c1, meta, vsn);
    var s1 := SuspectNode(s, c1);
    var s2 := TakeUpdate(s1, meta, vsn);
    LastNumberIsRepeated(s2, c2);
    var s3 := SuspectNode(s2, c2);
    states, events := Preceded(s3, Update(0), [ApplyUpdate(s3, 0)], []);
    states, events := Preceded(s2, Suspected(c2), states, events);
    states, events := Preceded(s1, Take(meta, vsn), states, events);
    states, events := Preceded(s, Suspected(c1), states, events);
  }

  /** An update that is applied before Leave and is not behind the table is announced. */
  lemma UpdateAnnounces(s: State, i: nat)
    requires Live(s) && !s.leave && i < |s.updates|
    requires var a, e := s.updates[i], s.table[s.self];
      a.node == s.self && |a.vsn| == 6 && a.addr == e.addr && a.port == e.port && e.inc <= a.inc
    ensures Announced(ApplyUpdate(s, i)) == Announced(s) + [s.updates[i].inc]
  {
    AnnouncementsAppend(s.log, AliveB(s.updates[i]), s.self);
  }

  // ----- Leaving

  predicate Gone(s: State) {
    s.leave && (s.self !in s.table || s.table[s.self].status == Dead)
  }

  lemma MessageKeepsGone(s: State, a: AliveMsg, random: nat)
    requires Gone(s)
    ensures var s' := AliveNode(s, a, false, random);
      Gone(s') && s'.self == s.self && Announced(s') == Announced(s)
  {
    if a.node != s.self {
      AliveOfOtherIsSilent(s, a, random);
      AliveOfOtherFrame(s, a, random);
    }
  }

  lemma ClaimKeepsGone(s: State, c: Claim)
    requires Gone(s)
    ensures var s' := SuspectNode(s, c); Gone(s') && s'.self == s.self && Announced(s') == Announced(s)
    ensures var s' := DeadNode(s, c); Gone(s') && s'.self == s.self && Announced(s') == Announced(s)
  {
    AnnouncementsAppend(s.log, SuspectB(c), s.self);
    AnnouncementsAppend(s.log, DeadB(c), s.self);
  }

  lemma StepKeepsGone(s: State, e: Event)
    requires OwnUpdates(s) && Gone(s) && Enabled(s, e)
    ensures Gone(Step(s, e)) && Step(s, e).self == s.self
    ensures Announced(Step(s, e)) == Announced(s)
  {
    match e
    case Receive(a, random) => MessageKeepsGone(s, a, random);
    case Suspected(c) => ClaimKeepsGone(s, c);
    case Died(c) => ClaimKeepsGone(s, c);
    case Fired(t) =>
      if Current(s, t) {
        ClaimKeepsGone(s.(timers := s.timers - {t}), Claim(s.table[t.node].inc, t.node, s.self));
      }
    case Update(i) => GoneIgnoresUpdate(s, i);
    case Left => ClaimKeepsGone(s.(departing := None), s.departing.value);
    case _ =>
  }

  lemma GoneIgnoresUpdate(s: State, i: nat)
    requires OwnUpdates(s) && Gone(s) && i < |s.updates|
    ensures ApplyUpdate(s, i) == s.(updates := s.updates[..i] + s.updates[i + 1..])
  {
    assert s.updates[i] in s.updates;
  }

  /** Once dead after Leave, whatever arrives: never alive again, and silent about itself. */
  lemma {:induction false} GoneForever(states: seq<State>, events: seq<Event>, i: nat, j: nat)
    requires Run(states, events) && i <= j < |states| && Gone(states[i])
    ensures Gone(states[j]) && states[j].self == states[i].self && Announced(states[j]) == Announced(states[i])
    decreases j
  {
    if i < j {
      GoneForever(states, events, i, j - 1);
      TraceKeepsOwnUpdates(states, events, 0, j - 1);
      StepKeepsGone(states[j - 1], events[j - 1]);
    }
  }

  /** Between setting the flag and applying the leave, the local entry either is as it was, or was refuted. */
  ghost predicate LeavePending(s0: State, s: State)
    requires Live(s0)
  {
    && LocalOk(s) && s.leave && s.self == s0.self && s.departing == s0.departing
    && Announced(s0) <= Announced(s)
    && (Gone(s)
        || (Live(s) && if Announced(s) == Announced(s0) then s.table[s.self].inc == s0.table[s0.self].inc
                       else s.table[s.self].inc > s0.table[s0.self].inc))
  }

  lemma StepKeepsLeavePending(s0: State, s: State, e: Event)
    requires Live(s0) && LeavePending(s0, s) && Enabled(s, e) && !e.Left?
    ensures LeavePending(s0, Step(s, e))
  {
    var s' := Step(s, e);
    StepKeepsLocalOk(s, e);
    if Gone(s) {
      StepKeepsGone(s, e);
    } else {
      StepSpeaks(s, e);
      LeaveIgnoresUpdates(s, e);
    }
  }

  lemma LeaveIgnoresUpdates(s: State, e: Event)
    requires LocalOk(s) && s.leave && Enabled(s, e)
    ensures Step(s, e).leave && (!e.Left? ==> Step(s, e).departing == s.departing)
    ensures e.Update? ==> Silent(s, Step(s, e))
  {
    if e.Update? {
      assert s.updates[e.i] in s.updates;
    }
  }

  lemma {:induction false} TraceKeepsLeavePending(states: seq<State>, events: seq<Event>, i: nat, j: nat)
    requires Trace(states, events) && i <= j < |states|
    requires Live(states[i]) && LeavePending(states[i], states[i])
    requires forall k :: i <= k < j ==> !events[k].Left?
    ensures LeavePending(states[i], states[j])
    decreases j
  {
    if i < j {
      TraceKeepsLeavePending(states, events, i, j - 1);
      StepKeepsLeavePending(states[i], states[j - 1], events[j - 1]);
    }
  }

  /** A Leave that set its flag at step i and is applied at step j leaves the node gone exactly when it was
      already gone by then or no refutation slipped in between; otherwise its dead message is out of date
      and the node stays alive in its own table. */
  lemma {:induction false} LeaveTakesEffectIff(states: seq<State>, events: seq<Event>, i: nat, j: nat)
    requires Run(states, events) && i < j < |events|
    requires events[i] == Leaving && !states[i].leave && events[j] == Left
    requires forall k :: i < k < j ==> !events[k].Left?
    ensures Gone(states[j + 1]) <==> Gone(states[j]) || Announced(states[j]) == Announced(states[i])
  {
    RunKeepsLocalOk(states, events, i);
    RunKeepsLocalOk(states, events, i + 1);
    SetLeaveStarts(states[i], events[i], states[i + 1]);
    TraceKeepsLeavePending(states, events, i + 1, j);
    ApplyLeaveEnds(states[i + 1], states[j], events[j], states[j + 1]);
  }

  lemma SetLeaveStarts(s: State, e: Event, s': State)
    requires LocalOk(s) && !s.leave && e == Leaving && Enabled(s, e) && s' == Step(s, e)
    requires LocalOk(s')
    ensures Live(s') && LeavePending(s', s') && Announced(s') == Announced(s)
    ensures s'.departing == Some(Claim(s'.table[s'.self].inc, s'.self, ""))
  {
  }

  lemma ApplyLeaveEnds(s0: State, s: State, e: Event, s': State)
    requires Live(s0) && s0.departing == Some(Claim(s0.table[s0.self].inc, s0.self, ""))
    requires LeavePending(s0, s) && e == Left && Enabled(s, e) && s' == Step(s, e)
    ensures Gone(s') <==> Gone(s) || Announced(s) == Announced(s0)
  {
  }
}
