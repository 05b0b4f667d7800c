# Models of the libraries behind serfbort

serfbort itself is a thin command line over vendored libraries. This project models the four of them that carry its
hard guarantees and proves what they promise. `dafny verify dfyconfig.toml` checks all of it.

**Gossip membership** (hashicorp/memberlist). `membership.dfy` describes a node as a value: its table of peers with
incarnations and states, its own list, counters, pending timers, updates and departure, and a log of the broadcasts it
queued. A run is any sequence of alive, suspect and dead messages, timer firings, reaps, and the two halves of
UpdateNode and Leave, after setAlive; a push/pull merge is proved to be a sequence of such steps.
`membership_proofs.dfy`, `membership_self.dfy`, `membership_timers.dfy` and `membership_probing.dfy` prove safety over
whole runs, and `membership_effects.dfy` what messages leave behind; `memberlist.dfy` is the class with its mutable
nodes, map and list, whose methods refine the steps, with the shuffle in `shuffling.dfy`. The retransmit-limited queue
is a value with calls (`queue.dfy`, `queue_proofs.dfy`, `queue_effects.dfy`) and a class that refines them
(`transmit_limited_queue.dfy`); `compound.dfy` and `packets.dfy` cover framing and byte budgets.

**DNS names** (miekg/dns). `dns_names.dfy` gives wire form, presentation form, the reading of a name with a budget of
pointers, and packing as a scan of the text. `dns_escapes.dfy` proves the presentation form lossless (section 5.1 of
RFC 1035), `dns_compression.dfy` and `dns_messages.dfy` that compression preserves names and how ten pointers relate
to labels (section 4.1.4 of RFC 1035), `dns_labels.dfy` and `dns_subdomains.dfy` what the label scanner computes.
`dns_presentation.dfy`, `dns_wire.dfy` and `dns_label_texts.dfy` pin texts, bytes and label starts down one by one.
`domain_names.dfy` and `domain_packing.dfy` hold the loops themselves, with the text buffer that shrinks in place.
`nsec_bitmap.dfy` covers the type bitmap.

**Codecs** (hashicorp/go-msgpack). `msgpack.dfy` describes encoding and decoding, `msgpack_roundtrip.dfy` proves that
they are inverse and self-delimiting, `codec_writer.dfy`, `codec_reader.dfy`, `msgpack_encoder.dfy` and
`msgpack_decoder.dfy` hold the growing buffer, the cursor, the drivers and the recursion; `msgpack_format.dfy` gives
the descriptors and proves that the encoder takes the shortest. `binc.dfy`, `binc_symbols.dfy`, `binc_format.dfy` and
`binc_codec.dfy` do the same for strings and the symbol dictionary of binc.

**The circular buffer** (armon/circbuf) is in `circbuf.dfy`. `bytes.dfy`, `sequences.dfy` and `wrappers.dfy` are shared.

## What the code does that one might not expect

- packDomainName checks the room for every label but not for the final zero byte, so a message exactly one byte too
  short is an index out of range; the outcome `Panicked` stands for it.
- IsDomainName's comment says that the length of the whole name is not checked; the code packs into 256 imaginary
  bytes and rejects longer names. The model follows the code.
- An escaped final dot makes packing drop the last label without an error.
- decodeCompoundMessage computes `numParts*2` in eight bits, which is wrong from 128 parts on.
- The first message of a piggybacked packet is not charged for its length field, so 1402 bytes are possible.
- A claim of incarnation 2^32 - 1 about the local node makes the refutation loop spin; an alive message with one to
  five version bytes is an index out of range. Both are modes that a node does not leave.
- When a refutation takes the counter around past zero, it can stop at a number that a pending UpdateNode still holds;
  that number is then announced twice.
- The type bitmap is or-ed into what the message holds already, so a buffer that is not zero lends it types.
- Leave's dead message is ignored when a suspicion was refuted between its two steps.
- The queue's removal loop skips the broadcast that is shifted into a freed slot; only the one-per-node invariant makes
  it complete.
- binc reads the length of a long string from fewer bytes than were written, and forgets a symbol once 65536 newer
  ones exist.

## Model

| member | source | states |
|---|---|---|
| MembershipProofs.AcceptedAtMostOnce | Godeps/_workspace/src/github.com/hashicorp/memberlist/state.go:621-946 | Over whole runs: once an alive, suspect or dead message about a remote node is accepted, no message about it that claims the same incarnation and rank or less is accepted again while its entry stays, in whatever order gossip redelivers them. |
| MembershipProofs.StepRaises | Godeps/_workspace/src/github.com/hashicorp/memberlist/state.go:621-946 | While a remote entry stays in the table, every step leaves it as it is or strictly raises (incarnation, alive < suspect < dead). |
| MembershipProofs.TraceRaises | Godeps/_workspace/src/github.com/hashicorp/memberlist/state.go:621-946 | The same over any stretch of a run in which the entry is not reaped. |
| MembershipProofs.AcceptsIff | Godeps/_workspace/src/github.com/hashicorp/memberlist/state.go:692-700 | Exactly which messages about a known remote node are accepted: an alive one needs a higher incarnation and the same address, a suspect one an alive subject and no lower incarnation, a dead one a subject that is not dead; an accepted one is strictly above what was known. |
| MembershipProofs.RunKeepsIndexed | Godeps/_workspace/src/github.com/hashicorp/memberlist/state.go:322-343 | In every reachable state the node list is a duplicate-free permutation of the table's keys and numNodes is its length modulo 2^32, through inserts at random offsets and reaps with reshuffles. |
| MembershipProofs.InsertKeepsIndexed | Godeps/_workspace/src/github.com/hashicorp/memberlist/state.go:660-687 | Inserting an unknown node at the end and swapping it with a random slot keeps the list and the table in agreement. |
| MembershipProofs.RefutationLoop | Godeps/_workspace/src/github.com/hashicorp/memberlist/state.go:747-764 | The loop that draws numbers until one exceeds the claim ends after finitely many draws for every claim below 2^32 - 1, with the first number above it; for 2^32 - 1 it never ends. |
| MembershipProofs.TurnedIsModular | Godeps/_workspace/src/github.com/hashicorp/memberlist/state.go:544-546 | n draws of nextIncarnation add n modulo 2^32. |
| MembershipProofs.SetAliveIsInitial | Godeps/_workspace/src/github.com/hashicorp/memberlist/memberlist.go:231-327 | After setAlive the table holds exactly the local node, alive with incarnation 1: the state in which runs start. |
| MembershipEffects.AcceptedIsStored | Godeps/_workspace/src/github.com/hashicorp/memberlist/state.go:764-790 | Everything accepted about a peer is stored and passed on as it came: an alive message with its address, metadata, incarnation and versions; a suspect or dead message with its incarnation, a new stamp and, for a suspicion, a timer. |
| MembershipEffects.ToldIsStored | Godeps/_workspace/src/github.com/hashicorp/memberlist/state.go:764-790 | The same for every alive message taken over, pending updates of the node itself included; the stamp changes only when the entry was not alive. |
| MembershipEffects.LastToldIsKept | Godeps/_workspace/src/github.com/hashicorp/memberlist/state.go:764-790 | Over whole runs: while a node stays in the table, its entry says what the last accepted alive message about it said. |
| MembershipEffects.IgnoredChangesNothing | Godeps/_workspace/src/github.com/hashicorp/memberlist/state.go:692-700 | A message about a peer that is not accepted changes nothing, except that an alive message lists an unknown node. |
| MembershipEffects.InsertedIs | Godeps/_workspace/src/github.com/hashicorp/memberlist/state.go:660-687 | An unknown node enters as dead with incarnation 0 at slot random % n, and the node of that slot moves to the end. |
| MembershipEffects.OthersAreUntouched | Godeps/_workspace/src/github.com/hashicorp/memberlist/state.go:322-343 | A step leaves the entries of all nodes it is not about as they are; a reset removes exactly the dead. |
| MembershipEffects.RefutationIsStored | Godeps/_workspace/src/github.com/hashicorp/memberlist/state.go:747-764 | A refutation changes nothing but the local incarnation, to one more than the larger of counter and claim unless the counter wraps, and announces the local entry with it. |
| MembershipEffects.UpdateAcceptedIff | Godeps/_workspace/src/github.com/hashicorp/memberlist/state.go:630-720 | An update of the node itself takes effect exactly before Leave, at the address of the table, and with no lower number. |
| MembershipEffects.DepartureIsStored | Godeps/_workspace/src/github.com/hashicorp/memberlist/state.go:903-940 | After Leave the node's own dead message is stored and passed on. |
| MembershipEffects.LocalCallsAre | Godeps/_workspace/src/github.com/hashicorp/memberlist/memberlist.go:342-371 | UpdateNode takes the next number for the new data at the local address; Leave keeps the incarnation of that moment. |
| MembershipEffects.FirstEntryIs | Godeps/_workspace/src/github.com/hashicorp/memberlist/memberlist.go:231-327 | The first entry and the first announcement carry the configured address, metadata and versions with incarnation 1. |
| MembershipSelf.AnnouncementsIncrease | Godeps/_workspace/src/github.com/hashicorp/memberlist/state.go:747-764 | While no number is drawn behind 2^32 - 1, the incarnations that a node broadcasts about itself strictly increase over every interleaving of UpdateNode calls, refutations and messages, and no pending update shares its number. |
| MembershipSelf.IncreaseIffNothingRepeats | Godeps/_workspace/src/github.com/hashicorp/memberlist/memberlist.go:342-371 | In every run, wrapping or not, the announcements strictly increase exactly when no UpdateNode call is applied, before Leave and with the address of the table, while its number is the current one already. |
| MembershipSelf.LastNumberIsAnnouncedTwice | Godeps/_workspace/src/github.com/hashicorp/memberlist/memberlist.go:342-371 | From every initial state a run of four events wraps the counter and announces 1, 2^32 - 2, 2^32 - 1 and 2^32 - 1 again: the absence of wraps is needed. |
| MembershipSelf.StepSpeaks | Godeps/_workspace/src/github.com/hashicorp/memberlist/state.go:824-929 | A step is silent about the local node, carries out an UpdateNode call, or answers a claim about it with a number above that claim. |
| MembershipSelf.SpinsIff | Godeps/_workspace/src/github.com/hashicorp/memberlist/state.go:903-929 | A step hangs in a refutation exactly on a claim of 2^32 - 1 about the living local node that has to be refuted. |
| MembershipSelf.CrashesIff | Godeps/_workspace/src/github.com/hashicorp/memberlist/state.go:766-784 | A step crashes exactly when an alive message with one to five version bytes about another node is accepted (unknown with a number above 0, or known at that address with a lower one), or UpdateNode finds no local entry. |
| MembershipSelf.RunKeepsLocalOk | Godeps/_workspace/src/github.com/hashicorp/memberlist/state.go:824-844 | In every reachable state the local entry is never suspect, and is alive until Leave is called; announcements never decrease, even across a wrap of the counter, and end with the local incarnation. |
| MembershipSelf.GoneForever | Godeps/_workspace/src/github.com/hashicorp/memberlist/state.go:630-632 | Once dead after Leave, the local entry never becomes alive again and nothing more is announced, whatever arrives. |
| MembershipSelf.LeaveTakesEffectIff | Godeps/_workspace/src/github.com/hashicorp/memberlist/memberlist.go:478-503 | Leave takes effect exactly when the node was already dead or announced nothing between Leave's two steps; otherwise its dead message is dropped as old. |
| MembershipTimers.TimersArePrecise | Godeps/_workspace/src/github.com/hashicorp/memberlist/state.go:852-878 | A suspicion timer that fires kills the node exactly when its entry is unchanged since the suspicion that armed the timer; a timer left over from a refuted, renewed or reaped suspicion changes nothing but the set of timers. |
| MembershipTimers.RunKeepsStampsPast | Godeps/_workspace/src/github.com/hashicorp/memberlist/state.go:640-790 | State-change stamps in the table and in timers always lie before the clock, so a later change has another stamp. |
| MembershipTimers.MergeNeverKills | Godeps/_workspace/src/github.com/hashicorp/memberlist/state.go:950-973 | Merging any remote state leaves every node that was not dead in the table and not dead. |
| MembershipTimers.MergeIsTrace | Godeps/_workspace/src/github.com/hashicorp/memberlist/state.go:950-973 | A merge is a sequence of ordinary steps: for every record in order, unless the node hangs or crashes, an alive message or, for a suspect or dead one, a suspect message from the node itself. |
| MembershipTimers.RunThenMerge | Godeps/_workspace/src/github.com/hashicorp/memberlist/state.go:950-973 | A run followed by a merge is a run, so everything proved for runs holds after merges too. |
| MembershipTimers.OwnSnapshotIsIgnored | Godeps/_workspace/src/github.com/hashicorp/memberlist/net.go:708-723 | Merging a node's own snapshot changes no entry, consumes no incarnation and queues no broadcast. |
| MembershipTimers.SnapshotAt | Godeps/_workspace/src/github.com/hashicorp/memberlist/net.go:708-723 | A snapshot has one record for each listed node, in order, with all that its entry says. |
| MembershipTimers.StaleRecordIsIgnored | Godeps/_workspace/src/github.com/hashicorp/memberlist/state.go:741-745 | What a node exported about a remote peer at any earlier time is ignored for as long as the peer stays in the table. |
| MembershipProbing.ProbedOncePerRound | Godeps/_workspace/src/github.com/hashicorp/memberlist/state.go:164-206 | Over the probe calls from one reset of the list to the next, every slot is visited by exactly one call, and its node is probed exactly once when it is remote and not dead at that visit, and never otherwise. |
| MembershipProbing.RoundIsComplete | Godeps/_workspace/src/github.com/hashicorp/memberlist/state.go:171-183 | The walks of these calls together pass the whole list before the next reset, and probe nothing else than the calls report. |
| MembershipProbing.TargetIsEligible | Godeps/_workspace/src/github.com/hashicorp/memberlist/state.go:164-206 | A probe never picks the local node or a dead one, across a wrap with its reap as well. |
| Memberlists.NodeState.constructor | Godeps/_workspace/src/github.com/hashicorp/memberlist/state.go:660-673 | A node seen for the first time enters as dead with incarnation 0. |
| Memberlists.Memberlist.constructor | Godeps/_workspace/src/github.com/hashicorp/memberlist/memberlist.go:231-327 | A node after a successful setAlive, in the state that runs start from. |
| Memberlists.Memberlist.NextIncarnation | Godeps/_workspace/src/github.com/hashicorp/memberlist/state.go:544-546 | Draws the next 32-bit number. |
| Memberlists.Memberlist.IncarnationAbove | Godeps/_workspace/src/github.com/hashicorp/memberlist/state.go:750-753 | Draws numbers until one exceeds the claim, and ends for every claim below 2^32 - 1. |
| Memberlists.Memberlist.Refute | Godeps/_workspace/src/github.com/hashicorp/memberlist/state.go:747-764 | Refines the refutation step: a new incarnation is stored and announced. |
| Memberlists.Memberlist.AddNode | Godeps/_workspace/src/github.com/hashicorp/memberlist/state.go:660-687 | Refines the insert: a fresh node in list and map, at a random position. |
| Memberlists.Memberlist.Enlist | Godeps/_workspace/src/github.com/hashicorp/memberlist/state.go:675-686 | Appends the node, swaps it with the random slot and counts it. |
| Memberlists.Memberlist.AliveNode | Godeps/_workspace/src/github.com/hashicorp/memberlist/state.go:621-799 | aliveNode on the real list, map and counters refines the step of the pure state, in every branch. |
| Memberlists.Memberlist.Heard | Godeps/_workspace/src/github.com/hashicorp/memberlist/state.go:689-799 | What an alive message does to the record of its node: ignored, refuted or accepted. |
| Memberlists.Memberlist.Store | Godeps/_workspace/src/github.com/hashicorp/memberlist/state.go:768-790 | Stores versions, incarnation, metadata and the change of state. |
| Memberlists.Memberlist.SuspectNode | Godeps/_workspace/src/github.com/hashicorp/memberlist/state.go:803-870 | suspectNode refines the step: ignored, refuted, or suspected with a timer armed. |
| Memberlists.Memberlist.DeadNode | Godeps/_workspace/src/github.com/hashicorp/memberlist/state.go:882-946 | deadNode refines the step: ignored, refuted, or dead. |
| Memberlists.Memberlist.TimerFires | Godeps/_workspace/src/github.com/hashicorp/memberlist/state.go:852-878 | The timer callback refines the firing step. |
| Memberlists.Memberlist.MergeOne | Godeps/_workspace/src/github.com/hashicorp/memberlist/state.go:950-973 | One record of a push/pull exchange refines its step. |
| Memberlists.Memberlist.MergeState | Godeps/_workspace/src/github.com/hashicorp/memberlist/state.go:950-973 | The merge loop refines the merge of all records. |
| Memberlists.Memberlist.SendLocalState | Godeps/_workspace/src/github.com/hashicorp/memberlist/net.go:704-723 | The snapshot holds one record for every node of the list, in order. |
| Memberlists.Memberlist.ResetNodes | Godeps/_workspace/src/github.com/hashicorp/memberlist/state.go:322-343 | Reaping and reshuffling: the table loses exactly the dead, and the new order is a permutation of the survivors. |
| Memberlists.Memberlist.Probe | Godeps/_workspace/src/github.com/hashicorp/memberlist/state.go:164-206 | The probe loop, restarts and all, refines one probe step and terminates. |
| Memberlists.Memberlist.Walk | Godeps/_workspace/src/github.com/hashicorp/memberlist/state.go:166-199 | The walk over the list passes the local node and the dead and stops at its target, its budget or the end. |
| Memberlists.Memberlist.UpdateNodeTakes | Godeps/_workspace/src/github.com/hashicorp/memberlist/memberlist.go:342-365 | UpdateNode's first half takes a number for a message that is applied later. |
| Memberlists.Memberlist.UpdateNodeApplies | Godeps/_workspace/src/github.com/hashicorp/memberlist/memberlist.go:366-371 | UpdateNode's second half applies the message, whatever happened in between. |
| Memberlists.Memberlist.LeaveStarts | Godeps/_workspace/src/github.com/hashicorp/memberlist/memberlist.go:478-493 | Leave's first half sets the flag. |
| Memberlists.Memberlist.LeaveApplies | Godeps/_workspace/src/github.com/hashicorp/memberlist/memberlist.go:494-503 | Leave's second half delivers the dead message to the node itself. |
| Memberlists.MoveDeadNodes | Godeps/_workspace/src/github.com/hashicorp/memberlist/util.go:135-149 | In place: a permutation that is split at the returned index into nodes that are not dead and dead ones. |
| Memberlists.ShuffleNodes | Godeps/_workspace/src/github.com/hashicorp/memberlist/util.go:112-118 | In place: the first n nodes are shuffled as the random source says and the others left alone. |
| Shuffling.ShuffledIsPermuted | Godeps/_workspace/src/github.com/hashicorp/memberlist/util.go:112-118 | Whatever the random source, the shuffle only permutes. |
| Shuffling.EveryOrderIsPossible | Godeps/_workspace/src/github.com/hashicorp/memberlist/util.go:112-118 | The shuffle can bring about every order of the nodes: for each there is a random source that leads to it. |
| BroadcastQueueProofs.RunKeepsInv | Godeps/_workspace/src/github.com/hashicorp/memberlist/queue.go:49-151 | In every reachable state the queue is sorted by non-increasing transmits, holds at most one broadcast per node, accounts for every broadcast ever queued as queued once or finished once, and has sent none more than max(1, largest limit) times. |
| BroadcastQueueProofs.FinishedForGood | Godeps/_workspace/src/github.com/hashicorp/memberlist/queue.go:49-151 | A finished broadcast is finished exactly once and never sent again, and no broadcast is sent more than max(1, largest limit seen) times. |
| BroadcastQueueProofs.QueueBroadcastKeepsInv | Godeps/_workspace/src/github.com/hashicorp/memberlist/queue.go:49-67 | On a queue with one broadcast per node the removal loop, although it skips, finishes exactly the invalidated broadcasts, and the new one is appended. |
| BroadcastQueueProofs.GetBroadcastsKeepsInv | Godeps/_workspace/src/github.com/hashicorp/memberlist/queue.go:71-112 | A round of sending keeps the invariant: retired broadcasts are finished, the others are re-sorted. |
| BroadcastQueueProofs.RoundFitsTheLimit | Godeps/_workspace/src/github.com/hashicorp/memberlist/queue.go:83-95 | What a round picks fits the byte limit with the overhead of every message. |
| BroadcastQueueProofs.ChosenInOrder | Godeps/_workspace/src/github.com/hashicorp/memberlist/queue.go:83-95 | A round picks each broadcast at most once, least-sent ones first. |
| BroadcastQueue.PurgeRemovesAllIff | Godeps/_workspace/src/github.com/hashicorp/memberlist/queue.go:53-62 | The removal loop removes all invalidated broadcasts exactly when no two of them stand side by side. |
| BroadcastQueueEffects.QueueingReplacesTheSameNode | Godeps/_workspace/src/github.com/hashicorp/memberlist/broadcast.go:21-30 | Queueing a broadcast about a node replaces and finishes the one queued about that node and no other; one about no node replaces none; the new one is last and unsent. |
| BroadcastQueueEffects.OneBroadcastPerNode | Godeps/_workspace/src/github.com/hashicorp/memberlist/queue.go:49-67 | No two queued broadcasts are about the same node, by name. |
| BroadcastQueueEffects.SentIffItFits | Godeps/_workspace/src/github.com/hashicorp/memberlist/queue.go:83-104 | In a round each broadcast is sent exactly when it fits behind those sent from further back in the queue. |
| BroadcastQueueEffects.RoundTreats | Godeps/_workspace/src/github.com/hashicorp/memberlist/queue.go:83-104 | A broadcast that is not sent stays as it is; one that is sent counts one more, is finished when it has been sent as often as the limit says, and is queued again otherwise. |
| BroadcastQueueEffects.PruneKeepsTheLeastSent | Godeps/_workspace/src/github.com/hashicorp/memberlist/queue.go:133-151 | Prune keeps the given number of broadcasts, those sent least often, and finishes the others. |
| BroadcastQueueEffects.ResetFinishesAll | Godeps/_workspace/src/github.com/hashicorp/memberlist/queue.go:122-130 | Reset finishes everything that was queued. |
| TransmitLimitedQueues.TransmitLimitedQueue.constructor | Godeps/_workspace/src/github.com/hashicorp/memberlist/queue.go:12-26 | An empty queue satisfies the invariant. |
| TransmitLimitedQueues.TransmitLimitedQueue.QueueBroadcast | Godeps/_workspace/src/github.com/hashicorp/memberlist/queue.go:49-67 | The call refines its step, and the queue is what is not invalidated followed by the new broadcast. |
| TransmitLimitedQueues.TransmitLimitedQueue.Invalidate | Godeps/_workspace/src/github.com/hashicorp/memberlist/queue.go:53-62 | The in-place removal loop equals the skipping purge, and finishes what it removes. |
| TransmitLimitedQueues.TransmitLimitedQueue.GetBroadcasts | Godeps/_workspace/src/github.com/hashicorp/memberlist/queue.go:71-112 | The call refines its step: the messages chosen by the round, within the limit. |
| TransmitLimitedQueues.TransmitLimitedQueue.SendRound | Godeps/_workspace/src/github.com/hashicorp/memberlist/queue.go:83-104 | The loop with its swaps and truncations: messages sent, broadcasts finished, transmits counted, and what stays queued. |
| TransmitLimitedQueues.TransmitLimitedQueue.Prune | Godeps/_workspace/src/github.com/hashicorp/memberlist/queue.go:133-151 | Pruning finishes the most-sent broadcasts beyond the number to retain. |
| TransmitLimitedQueues.TransmitLimitedQueue.Reset | Godeps/_workspace/src/github.com/hashicorp/memberlist/queue.go:122-129 | Resetting finishes everything. |
| TransmitLimitedQueues.SortDescending | Godeps/_workspace/src/github.com/hashicorp/memberlist/queue.go:153-167 | A permutation in non-increasing order of transmits. |
| Compound.RoundTripIff | Godeps/_workspace/src/github.com/hashicorp/memberlist/util.go:192-252 | Exactly when decoding inverts framing: all messages are short, at most 255 of them, and the bytes that the 8-bit product numParts*2 skips happen to coincide with the stream. |
| Compound.RoundTrip | Godeps/_workspace/src/github.com/hashicorp/memberlist/util.go:192-252 | Decoding inverts framing for at most 127 messages of at most 65535 bytes. |
| Compound.MadeLayout | Godeps/_workspace/src/github.com/hashicorp/memberlist/util.go:192-213 | The type 7, the count, two bytes of length for each message with the more significant one first, and each message behind the ones before it. |
| Compound.OverfullIsGarbled | Godeps/_workspace/src/github.com/hashicorp/memberlist/util.go:218-236 | From 128 messages on it does not, for messages as they occur. |
| Compound.CutKeepsWholeMessages | Godeps/_workspace/src/github.com/hashicorp/memberlist/util.go:238-250 | For any cut of the payload, the parts are the longest prefix of whole messages and trunc is the number dropped. |
| Compound.CutTableIsAnError | Godeps/_workspace/src/github.com/hashicorp/memberlist/util.go:221-231 | A cut inside the length table is an error. |
| Compound.WholeIsLongest | Godeps/_workspace/src/github.com/hashicorp/memberlist/util.go:238-250 | The prefix that is kept is the longest that fits before the cut. |
| Compound.MakeCompoundMessage | Godeps/_workspace/src/github.com/hashicorp/memberlist/util.go:192-213 | The loops build the frame: type, count, lengths and messages. |
| Compound.DecodeCompoundMessage | Godeps/_workspace/src/github.com/hashicorp/memberlist/util.go:218-252 | The loops compute the specified decoding, with its errors and truncation. |
| Packets.OverheadIsTight | Godeps/_workspace/src/github.com/hashicorp/memberlist/security.go:59-83 | The reserve for encryption covers every message, for both versions, and is needed by some. |
| Packets.Pkcs7Encode | Godeps/_workspace/src/github.com/hashicorp/memberlist/security.go:39-45 | Padding to full blocks, which unpadding inverts. |
| Packets.Pkcs7Decode | Godeps/_workspace/src/github.com/hashicorp/memberlist/security.go:48-56 | Removes as many bytes as the last one says. |
| Packets.Transport.GetBroadcasts | Godeps/_workspace/src/github.com/hashicorp/memberlist/broadcast.go:72-100 | The queue's messages and behind them those of a delegate that keeps its limit fit the byte budget together. |
| Packets.UserMessagesFollow | Godeps/_workspace/src/github.com/hashicorp/memberlist/broadcast.go:80-97 | What the queue gives comes first; the delegate is asked for what fits into the rest at one more byte each, and its messages follow behind a type byte of 8. |
| Packets.Transport.EncryptPayload | Godeps/_workspace/src/github.com/hashicorp/memberlist/security.go:88-136 | The encrypted payload is version, nonce and the sealed message, padded in version 0, and has the length that is computed for it. |
| Packets.PacketIsReadBack | Godeps/_workspace/src/github.com/hashicorp/memberlist/security.go:88-136 | Whoever can open what was sealed gets the message back, in both versions. |
| Packets.Transport.RawSendMsgUDP | Godeps/_workspace/src/github.com/hashicorp/memberlist/net.go:571-601 | The message is compressed only when that shrinks it and then encrypted, so a packet exceeds its message by at most the reserve. |
| Packets.Transport.SqueezedWhenShorter | Godeps/_workspace/src/github.com/hashicorp/memberlist/net.go:571-601 | Compression is used exactly when it is on, works and makes the message shorter. |
| Packets.Transport.SendMsg | Godeps/_workspace/src/github.com/hashicorp/memberlist/net.go:545-568 | The packet is the compound of the message and what queue and delegate give for the remaining room, or the message alone when that is nothing; with broadcasts it has at most 1402 bytes, encryption included. |
| Packets.Transport.Gossip | Godeps/_workspace/src/github.com/hashicorp/memberlist/state.go:347-378 | Every packet is the compound of all that its call takes from the queue as the call before left it, and has at most 1400 bytes, encryption included; packets stop early only when there is nothing to send. |
| Packets.GossipReachesTheReceiver | Godeps/_workspace/src/github.com/hashicorp/memberlist/state.go:356-374 | Every gossip compound is decoded into exactly the messages that the queue gave up for it, when queued messages have nine bytes or more. |
| Packets.PiggybackBoundIsReached | Godeps/_workspace/src/github.com/hashicorp/memberlist/net.go:545-568 | For every message that leaves room, once one broadcast that fills this room was queued, the compound that SendMsg makes has 1402 bytes: the length field of the first message is not budgeted. |
| Packets.GossipDecodes | Godeps/_workspace/src/github.com/hashicorp/memberlist/state.go:356-374 | A gossip packet whose messages have at least 9 bytes always decodes, since at most 127 fit. |
| Packets.EightBytesAreTooFew | Godeps/_workspace/src/github.com/hashicorp/memberlist/state.go:356-374 | With messages of 8 bytes a packet within the budget can be garbled. |
| CircBuf.RetainsTheLastBytes | Godeps/_workspace/src/github.com/armon/circbuf/circbuf.go:34-55 | Keeping a bounded rest at every write loses nothing: after any writes it is the last min(total, size) bytes of everything written. |
| CircBuf.WriteHeld | Godeps/_workspace/src/github.com/armon/circbuf/circbuf.go:34-55 | One write on the ring, of any length at any cursor, keeps the last bytes of what was held and written. |
| CircBuf.Buffer.constructor | Godeps/_workspace/src/github.com/armon/circbuf/circbuf.go:20-30 | A new buffer is empty. |
| CircBuf.Buffer.NewBuffer | Godeps/_workspace/src/github.com/armon/circbuf/circbuf.go:20-30 | A size that is not positive is an error. |
| CircBuf.Buffer.Write | Godeps/_workspace/src/github.com/armon/circbuf/circbuf.go:34-55 | Afterwards the buffer holds the last bytes of its contents and the argument, which may be longer than the buffer. |
| CircBuf.Buffer.Bytes | Godeps/_workspace/src/github.com/armon/circbuf/circbuf.go:69-81 | Returns the held bytes, oldest first, in each of the three layouts. |
| CircBuf.Buffer.Reset | Godeps/_workspace/src/github.com/armon/circbuf/circbuf.go:84-87 | Empties the buffer. |
| CircBuf.Buffer.WriteAll | Godeps/_workspace/src/github.com/armon/circbuf/circbuf.go:34-81 | After a whole run of writes the contents are the last min(total, size) bytes of their concatenation. |
| DnsMessages.NamesSurvive | Godeps/_workspace/src/github.com/miekg/dns/msg.go:242-379 | For any names without escapes packed back to back through one compression map, as far as packing went: at each start a decoder reads exactly that name and the offset behind it, in at most as many hops as the name has labels; enough room for uncompressed names always suffices. |
| DnsMessages.TextsSurvive | Godeps/_workspace/src/github.com/miekg/dns/msg.go:396-476 | In particular names of at most ten labels whose bytes need no escape come out of UnpackDomainName's budget as the text that was packed. |
| DnsMessages.TenLabelsFitTheBudget | Godeps/_workspace/src/github.com/miekg/dns/msg.go:448-463 | Ten pointers are enough for names of at most ten labels. |
| DnsMessages.TenIsTheLimit | Godeps/_workspace/src/github.com/miekg/dns/msg.go:448-463 | And for no more: for every n up to 4000 there is a message of names of up to n labels, packed without an error, whose last name unpacks exactly when n is at most ten. |
| DnsMessages.CleanText | Godeps/_workspace/src/github.com/miekg/dns/msg.go:418-443 | Where no byte needs an escape the packed text is the text of the name. |
| DnsCompression.PackCompresses | Godeps/_workspace/src/github.com/miekg/dns/msg.go:276-376 | Packing a name refines the recursive description of compression: the longest known suffix becomes a pointer, every longer one is recorded. |
| DnsWire.PackedNameIs | Godeps/_workspace/src/github.com/miekg/dns/msg.go:327-360 | Packing a plain name into a message with room writes the labels in front of its longest known suffix and then 192 + p / 256, p % 256 for the offset p where that stands, or all labels and a zero byte. |
| DnsWire.WrittenSuffixesAreRecorded | Godeps/_workspace/src/github.com/miekg/dns/msg.go:332-338 | Every suffix written out is recorded at its own offset, unless that is 16384 or more. |
| DnsWire.Followed | Godeps/_workspace/src/github.com/miekg/dns/msg.go:446-464 | Two bytes from 192 on continue the name at their lower fourteen bits and take one hop. |
| DnsWire.Refused | Godeps/_workspace/src/github.com/miekg/dns/msg.go:404-468 | Reserved length bytes, and labels, pointers and names that leave the message, are errors. |
| DnsWire.BadLabelIsRefused | Godeps/_workspace/src/github.com/miekg/dns/msg.go:304-313 | A label of 64 bytes or more, or an empty one behind another, is refused after the labels in front of it, whatever follows. |
| DnsWire.NotFullyQualified | Godeps/_workspace/src/github.com/miekg/dns/msg.go:253-263 | A text without a final dot is not packed into a message. |
| DnsCompression.CompressedIsSound | Godeps/_workspace/src/github.com/miekg/dns/msg.go:325-350 | A name behind a message with a sound map is read back in at most as many hops as it has labels, and the map stays sound: every entry points below 16384 to a literal label from which the suffix is read in fewer hops than it has labels. |
| DnsCompression.CompressedGrows | Godeps/_workspace/src/github.com/miekg/dns/msg.go:329-335 | Packing records only suffixes of the name and changes no entry. |
| DnsCompression.DecodeExtends | Godeps/_workspace/src/github.com/miekg/dns/msg.go:396-476 | Bytes that are added later, and a larger budget, change nothing about a name that was readable. |
| DnsCompression.PointerIsRead | Godeps/_workspace/src/github.com/miekg/dns/msg.go:1409-1411 | The pointer bytes give the offset back. |
| DnsEscapes.PresentationIsLossless | Godeps/_workspace/src/github.com/miekg/dns/msg.go:276-303 | For every uncompressed wire name of labels of 1 to 63 arbitrary bytes: unpacking it and packing the text gives the same bytes. |
| DnsEscapes.PackOfPresent | Godeps/_workspace/src/github.com/miekg/dns/msg.go:242-379 | What packing the text of any wire name gives, by the room there is: the wire form, an index out of range when only the final zero byte does not fit, and a buffer error below that. |
| DnsEscapes.PackedIsAWireName | Godeps/_workspace/src/github.com/miekg/dns/msg.go:304-360 | Whatever text packs without an error and does not start with a dot is written as a well-formed wire name with as many labels as reported, and its canonical text packs to the same. |
| DnsEscapes.PresentIsInjective | Godeps/_workspace/src/github.com/miekg/dns/msg.go:418-443 | Different wire names have different texts. |
| DnsEscapes.DecodeWire | Godeps/_workspace/src/github.com/miekg/dns/msg.go:404-446 | An uncompressed name is read from anywhere in a message, with the offset behind it. |
| DnsEscapes.LongNamesAreInvalid | Godeps/_workspace/src/github.com/miekg/dns/defaults.go:154-164 | IsDomainName is documented not to look at the whole length, but a name is valid exactly when its wire form has at most 257 bytes. |
| DomainNames.UnpackDomainName | Godeps/_workspace/src/github.com/miekg/dns/msg.go:396-476 | The loop computes the specified reading with ten hops: text, offset and error; it halts on any bytes. |
| DomainNames.ReadStep | Godeps/_workspace/src/github.com/miekg/dns/msg.go:402-469 | What stands at an offset: end, label, pointer, or one of the errors. |
| DomainNames.AppendByte | Godeps/_workspace/src/github.com/miekg/dns/msg.go:418-443 | The escape of one byte. |
| DnsPresentation.EscapedIff | Godeps/_workspace/src/github.com/miekg/dns/msg.go:418-443 | A byte stands for itself exactly when it is printable, not a space, and none of . ( ) ; @ the double quote and the backslash. |
| DnsPresentation.EscapesAre | Godeps/_workspace/src/github.com/miekg/dns/msg.go:420-440 | The escapes themselves: a backslash before special bytes, letters for tab and carriage return, three digits of the value for all others. |
| DnsPresentation.NameIsPrintable | Godeps/_workspace/src/github.com/miekg/dns/msg.go:418-443 | The text of every name is printable, and the special bytes ( ) ; space @ and the double quote stand directly behind a backslash. |
| DomainNames.AppendDigits | Godeps/_workspace/src/github.com/miekg/dns/msg.go:428-439 | Decimal digits are padded to three. |
| DomainPacking.PackDomainName | Godeps/_workspace/src/github.com/miekg/dns/msg.go:242-379 | The call with its buffers: offset, label count, error, compression map and the bytes written are those of the functional description; nothing before the start is touched. |
| DomainPacking.PackLabels | Godeps/_workspace/src/github.com/miekg/dns/msg.go:267-360 | The loop over the text that shrinks in place follows the scan of the unchanged text. |
| DomainPacking.UnescapeAt | Godeps/_workspace/src/github.com/miekg/dns/msg.go:277-302 | One escape is replaced in place by its byte and the rest moves up, which leaves stale bytes behind it. |
| DomainPacking.ShiftDown | Godeps/_workspace/src/github.com/miekg/dns/msg.go:278-281 | The shifting loops, including what they leave at the end of the buffer. |
| DomainPacking.CopyLabel | Godeps/_workspace/src/github.com/miekg/dns/msg.go:311-326 | A label and its length are written as far as there is room. |
| DomainPacking.Lookup | Godeps/_workspace/src/github.com/miekg/dns/msg.go:330-336 | A suffix is found, or recorded when its offset fits a pointer; the root never is. |
| DomainPacking.FinishName | Godeps/_workspace/src/github.com/miekg/dns/msg.go:361-379 | The pointer or zero byte at the end, and the index out of range where there is no room for it. |
| DomainPacking.IsDomainName | Godeps/_workspace/src/github.com/miekg/dns/defaults.go:161-164 | Counts labels without a message. |
| DomainPacking.UnescapedStage | Godeps/_workspace/src/github.com/miekg/dns/msg.go:277-302 | After an in-place escape the buffer still shows the same scan of the original text. |
| DnsLabels.ScannersAgree | Godeps/_workspace/src/github.com/miekg/dns/labels.go:88-101 | For every name but the root that packs without an error, packing and CountLabel report the same number of labels exactly when the final dot is not escaped; otherwise packing loses one. |
| DnsLabelTexts.StartsOfName | Godeps/_workspace/src/github.com/miekg/dns/labels.go:89-107 | On the text of every wire name the scanner finds exactly where the labels' texts start, escaped dots and backslashes included. |
| DnsLabels.NextLabel | Godeps/_workspace/src/github.com/miekg/dns/labels.go:127-144 | The scanner finds the next dot that is not escaped, except a final one. |
| DnsLabels.NextIsACut | Godeps/_workspace/src/github.com/miekg/dns/labels.go:127-144 | From a position in step with the quotes, NextLabel finds the next label start. |
| DnsLabels.Split | Godeps/_workspace/src/github.com/miekg/dns/labels.go:106-121 | All label starts, and none for the root. |
| DnsLabels.CountLabel | Godeps/_workspace/src/github.com/miekg/dns/labels.go:88-101 | The number of label starts. |
| DnsSubdomains.CompareDomainName | Godeps/_workspace/src/github.com/miekg/dns/labels.go:48-85 | The comparison from the right stops where the labels first differ. |
| DnsSubdomains.CompareIsLongest | Godeps/_workspace/src/github.com/miekg/dns/labels.go:41-85 | Its result is the length of the longest common suffix of labels. |
| DnsLabelTexts.CompareNames | Godeps/_workspace/src/github.com/miekg/dns/labels.go:41-85 | For the texts of any two wire names it is how many labels the names have in common at the end. |
| DnsSubdomains.IsSubDomain | Godeps/_workspace/src/github.com/miekg/dns/defaults.go:168-171 | Compares that length with the parent's label count. |
| DnsSubdomains.SubDomainIff | Godeps/_workspace/src/github.com/miekg/dns/defaults.go:168-171 | A child is below a parent exactly when the parent's labels are the child's last ones and the parent is not the empty string. |
| DnsLabelTexts.SubDomainOfNames | Godeps/_workspace/src/github.com/miekg/dns/defaults.go:161-171 | The text of one wire name is a subdomain of another's exactly when its labels end with all of the other's. |
| DnsSubdomains.SubDomainIsReflexive | Godeps/_workspace/src/github.com/miekg/dns/defaults.go:166-171 | Reflexive exactly on strings that are not empty. |
| DnsSubdomains.SubDomainIsTransitive | Godeps/_workspace/src/github.com/miekg/dns/defaults.go:166-171 | Transitive on all strings. |
| DnsSubdomains.SubDomainIsAntisymmetric | Godeps/_workspace/src/github.com/miekg/dns/defaults.go:166-171 | Mutual subdomains are the same fully qualified name. |
| NsecBitmap.AscendingRoundTrip | Godeps/_workspace/src/github.com/miekg/dns/msg.go:758-788 | Every ascending list of 16-bit types that packs is unpacked as the same list, across windows and gaps (section 4.1.2 of RFC 4034). |
| NsecBitmap.SingleType | Godeps/_workspace/src/github.com/miekg/dns/msg.go:764-784 | The layout: a single type is its window, a length that reaches its bit, and that bit, where 128 stands for the first of eight. |
| NsecBitmap.UnpackPacked | Godeps/_workspace/src/github.com/miekg/dns/msg.go:1149-1213 | Whatever packs is unpacked as the ascending list of the same types. |
| NsecBitmap.PackSucceedsIff | Godeps/_workspace/src/github.com/miekg/dns/msg.go:764-784 | Packing succeeds exactly when types are grouped by byte in non-decreasing order and the blocks fit. |
| NsecBitmap.UnpackEncoded | Godeps/_workspace/src/github.com/miekg/dns/msg.go:1158-1213 | Well-formed blocks in ascending windows are unpacked into the types whose bits are set. |
| NsecBitmap.UnpackSucceedsIff | Godeps/_workspace/src/github.com/miekg/dns/msg.go:1158-1195 | Unpacking succeeds exactly on blocks of 1 to 32 bytes in ascending windows. |
| NsecBitmap.PackNsec | Godeps/_workspace/src/github.com/miekg/dns/msg.go:758-788 | The loop on any message: offset, error and all bytes of the message are those of the functional description, also on an error. |
| NsecBitmap.MessageOf | Godeps/_workspace/src/github.com/miekg/dns/msg.go:758-788 | In that description the blocks, with their bits or-ed into what was there, replace just their place in the message; on an error the offset is the length of the message, and nothing before the start changes. |
| NsecBitmap.PackOverZeros | Godeps/_workspace/src/github.com/miekg/dns/msg.go:777-783 | In a message that is zero behind the start these are the blocks that unpacking reads back. |
| NsecBitmap.UnpackNsec | Godeps/_workspace/src/github.com/miekg/dns/msg.go:1149-1213 | The loop computes the specified list or error. |
| NsecBitmap.BitOfSetBit | Godeps/_workspace/src/github.com/miekg/dns/msg.go:783 | Setting a bit sets that bit and no other. |
| NsecBitmap.BitOfOr | Godeps/_workspace/src/github.com/miekg/dns/msg.go:783 | A bit is set in a bytewise or exactly when it is set in one of the bytes. |
| MsgpackRoundTrip.RoundTrip | Godeps/_workspace/src/github.com/hashicorp/go-msgpack/codec/msgpack.go:120-250 | For every nested value with lengths below 2^32 and keys that stay distinct: decoding its encoding in front of any bytes gives the value, up to the merging of integer and text types, and leaves exactly those bytes. |
| MsgpackRoundTrip.RoundTripAll | Godeps/_workspace/src/github.com/hashicorp/go-msgpack/codec/decode.go:872-890 | The same for the items of an array. |
| MsgpackRoundTrip.RoundTripPairs | Godeps/_workspace/src/github.com/hashicorp/go-msgpack/codec/decode.go:958-976 | The same for the pairs of a map. |
| MsgpackRoundTrip.SelfDelimiting | Godeps/_workspace/src/github.com/hashicorp/go-msgpack/codec/msgpack.go:274-369 | No encoding is the beginning of another, up to the merged types. |
| MsgpackRoundTrip.DecodedIsStable | Godeps/_workspace/src/github.com/hashicorp/go-msgpack/codec/msgpack.go:274-369 | What a decoder returned survives any further trip unchanged. |
| MsgpackRoundTrip.HeadOfInt | Godeps/_workspace/src/github.com/hashicorp/go-msgpack/codec/msgpack.go:120-139 | Every 64-bit integer is announced by its descriptor and read back. |
| MsgpackRoundTrip.HeadOfContainer | Godeps/_workspace/src/github.com/hashicorp/go-msgpack/codec/msgpack.go:595-613 | Every container length below 2^32 is read back, for each kind of container and both settings. |
| MsgpackFormat.UintIsShortest | Godeps/_workspace/src/github.com/hashicorp/go-msgpack/codec/msgpack.go:141-157 | No other bytes that a decoder reads as the same number are shorter than what the encoder writes for an unsigned one. |
| MsgpackFormat.IntIsShortest | Godeps/_workspace/src/github.com/hashicorp/go-msgpack/codec/msgpack.go:120-139 | The same for signed numbers. |
| MsgpackFormat.HeaderIsShortest | Godeps/_workspace/src/github.com/hashicorp/go-msgpack/codec/msgpack.go:213-250 | The same for the headers of strings, byte slices, arrays and maps, except that a string of 32 to 255 bytes takes one byte too many unless extensions are written. |
| MsgpackFormat.HeaderLengths | Godeps/_workspace/src/github.com/hashicorp/go-msgpack/codec/msgpack.go:96-109 | How long headers are, by container, length and setting. |
| MsgpackFormat.SmallDescriptors | Godeps/_workspace/src/github.com/hashicorp/go-msgpack/codec/msgpack.go:29-78 | The descriptors that say everything: small numbers, nil, booleans and short containers. |
| MsgpackFormat.UintDescriptors | Godeps/_workspace/src/github.com/hashicorp/go-msgpack/codec/msgpack.go:44-47 | 0xcc to 0xcf stand for unsigned numbers of 1, 2, 4 and 8 bytes. |
| MsgpackFormat.IntDescriptor1 | Godeps/_workspace/src/github.com/hashicorp/go-msgpack/codec/msgpack.go:48 | 0xd0 stands for a signed number of one byte. |
| MsgpackFormat.IntDescriptor2 | Godeps/_workspace/src/github.com/hashicorp/go-msgpack/codec/msgpack.go:49 | 0xd1 stands for a signed number of two bytes. |
| MsgpackFormat.IntDescriptor4 | Godeps/_workspace/src/github.com/hashicorp/go-msgpack/codec/msgpack.go:50 | 0xd2 stands for a signed number of four bytes. |
| MsgpackFormat.IntDescriptor8 | Godeps/_workspace/src/github.com/hashicorp/go-msgpack/codec/msgpack.go:51 | 0xd3 stands for a signed number of eight bytes. |
| MsgpackFormat.ContainerDescriptors | Godeps/_workspace/src/github.com/hashicorp/go-msgpack/codec/msgpack.go:70-74 | 0xdc to 0xdf stand for arrays and maps with lengths of 2 and 4 bytes. |
| CodecWriter.BytesEncWriter.constructor | Godeps/_workspace/src/github.com/hashicorp/go-msgpack/codec/encode.go:191-197 | An empty output over the caller's slice. |
| CodecWriter.BytesEncWriter.Grow | Godeps/_workspace/src/github.com/hashicorp/go-msgpack/codec/encode.go:253-267 | Makes room and keeps what was written, by reslicing or in a new array of twice the capacity. |
| CodecWriter.BytesEncWriter.WriteB | Godeps/_workspace/src/github.com/hashicorp/go-msgpack/codec/encode.go:225-236 | Appends bytes. |
| CodecWriter.BytesEncWriter.WriteNumber | Godeps/_workspace/src/github.com/hashicorp/go-msgpack/codec/encode.go:199-223 | Appends a number, most significant byte first. |
| MsgpackEncoder.Encoder.EncodeInt | Godeps/_workspace/src/github.com/hashicorp/go-msgpack/codec/msgpack.go:120-139 | Appends the encoding of a signed integer. |
| MsgpackEncoder.Encoder.EncodeUint | Godeps/_workspace/src/github.com/hashicorp/go-msgpack/codec/msgpack.go:141-157 | Appends the encoding of an unsigned integer. |
| MsgpackEncoder.Encoder.WriteContainerLen | Godeps/_workspace/src/github.com/hashicorp/go-msgpack/codec/msgpack.go:237-250 | Appends the header of a container. |
| MsgpackEncoder.Encoder.EncodeText | Godeps/_workspace/src/github.com/hashicorp/go-msgpack/codec/msgpack.go:211-235 | Appends a string or byte slice with its header. |
| MsgpackEncoder.Encoder.Encode | Godeps/_workspace/src/github.com/hashicorp/go-msgpack/codec/encode.go:703-816 | Appends exactly the encoding of any nested value. |
| MsgpackEncoder.Encoder.EncodeItems | Godeps/_workspace/src/github.com/hashicorp/go-msgpack/codec/encode.go:919-995 | The loops over items and pairs. |
| CodecReader.BytesDecReader.Consume | Godeps/_workspace/src/github.com/hashicorp/go-msgpack/codec/decode.go:124-136 | Advances the cursor, with different failures at the end and before it. |
| CodecReader.BytesDecReader.ReadN | Godeps/_workspace/src/github.com/hashicorp/go-msgpack/codec/decode.go:138-145 | The next n bytes. |
| CodecReader.BytesDecReader.ReadNumberOf | Godeps/_workspace/src/github.com/hashicorp/go-msgpack/codec/decode.go:151-173 | The next bytes as a number. |
| MsgpackDecoder.Driver.InitReadNext | Godeps/_workspace/src/github.com/hashicorp/go-msgpack/codec/msgpack.go:536-543 | Reads a descriptor ahead without losing it. |
| MsgpackDecoder.Driver.DecodeNaked | Godeps/_workspace/src/github.com/hashicorp/go-msgpack/codec/msgpack.go:274-369 | Scalars are read at once; containers leave the stream as it is. |
| MsgpackDecoder.Driver.ReadContainerLen | Godeps/_workspace/src/github.com/hashicorp/go-msgpack/codec/msgpack.go:595-613 | The length that the descriptor announces. |
| MsgpackDecoder.Driver.DecodeText | Godeps/_workspace/src/github.com/hashicorp/go-msgpack/codec/msgpack.go:494-533 | The contents of a string or byte slice. |
| MsgpackDecoder.Decoder.Decode | Godeps/_workspace/src/github.com/hashicorp/go-msgpack/codec/decode.go:634-722 | Decoding into a nil interface computes the specified value, error and rest, and terminates on any bytes. |
| MsgpackDecoder.Decoder.DecodeFurther | Godeps/_workspace/src/github.com/hashicorp/go-msgpack/codec/decode.go:294-359 | Decodes into what was made for the descriptor. |
| MsgpackDecoder.Decoder.DecSliceIntf | Godeps/_workspace/src/github.com/hashicorp/go-msgpack/codec/decode.go:872-890 | The items of an array. |
| MsgpackDecoder.Decoder.DecMapIntfIntf | Godeps/_workspace/src/github.com/hashicorp/go-msgpack/codec/decode.go:958-976 | The pairs of a map, with byte-slice keys as strings and unhashable keys as errors. |
| BincSymbols.InStepIff | Godeps/_workspace/src/github.com/hashicorp/go-msgpack/codec/binc.go:196-261 | For any run of strings through both dictionaries: the i-th comes out as it went in exactly when it is not a symbol that 65536 or more newer ones were defined after. |
| BincSymbols.SymbolsRoundTrip | Godeps/_workspace/src/github.com/hashicorp/go-msgpack/codec/binc.go:576-622 | From strings to bytes and back: any run with at most 65536 different symbols survives, whatever bytes follow. |
| BincSymbols.FewSymbolsStayInStep | Godeps/_workspace/src/github.com/hashicorp/go-msgpack/codec/binc.go:196-261 | With at most 65536 different symbols both dictionaries agree throughout. |
| BincSymbols.ManySymbolsLoseStep | Godeps/_workspace/src/github.com/hashicorp/go-msgpack/codec/binc.go:227-231 | After 65537 different symbols the first one, sent again, comes out as another. |
| BincSymbols.GrownSender | Godeps/_workspace/src/github.com/hashicorp/go-msgpack/codec/binc.go:220-231 | Both ends stay determined by the list of symbols defined so far, through the wrap of the 32-bit sequencer and the 16-bit ids. |
| BincSymbols.ReceiverHas | Godeps/_workspace/src/github.com/hashicorp/go-msgpack/codec/binc.go:595-615 | The decoder finds a symbol under its id exactly until 65536 newer ones are defined. |
| Binc.StringRoundTripIff | Godeps/_workspace/src/github.com/hashicorp/go-msgpack/codec/binc.go:280-302 | A string sent in full survives exactly when its length is at most 65535: beyond that the encoder writes 4 or 8 bytes of length where the decoder reads 3 or 4. |
| Binc.TokenRoundTrip | Godeps/_workspace/src/github.com/hashicorp/go-msgpack/codec/binc.go:585-615 | Definitions, references and short strings are self-delimiting. |
| BincFormat.SentOnce | Godeps/_workspace/src/github.com/hashicorp/go-msgpack/codec/binc.go:196-261 | In any run a string of more than one byte is defined, under the next id, when it comes first, and takes at most three bytes whenever it comes again; shorter ones are sent as they are. |
| BincFormat.SymbolsSoFar | Godeps/_workspace/src/github.com/hashicorp/go-msgpack/codec/binc.go:196-261 | The symbols defined so far are the different strings of more than one byte, each once. |
| BincFormat.PlainBytes | Godeps/_workspace/src/github.com/hashicorp/go-msgpack/codec/binc.go:280-302 | The bytes of a string sent in full. |
| BincFormat.RefBytes | Godeps/_workspace/src/github.com/hashicorp/go-msgpack/codec/binc.go:214-224 | The bytes of a reference: 0xb0 and one byte of id, or 0xb8 and two. |
| BincFormat.ShortDefBytes | Godeps/_workspace/src/github.com/hashicorp/go-msgpack/codec/binc.go:225-258 | The bytes of a definition of less than 256 bytes. |
| BincFormat.LongDefBytes | Godeps/_workspace/src/github.com/hashicorp/go-msgpack/codec/binc.go:225-258 | The bytes of a definition of less than 65536 bytes. |
| BincCodec.EncDriver.constructor | Godeps/_workspace/src/github.com/hashicorp/go-msgpack/codec/binc.go:62-67 | An encoder starts with an empty dictionary. |
| BincCodec.EncDriver.EncodeSymbol | Godeps/_workspace/src/github.com/hashicorp/go-msgpack/codec/binc.go:196-261 | Writes the token of the string and updates the dictionary. |
| BincCodec.EncDriver.EncodeString | Godeps/_workspace/src/github.com/hashicorp/go-msgpack/codec/binc.go:188-194 | Writes a string in full. |
| BincCodec.EncDriver.EncLenTo | Godeps/_workspace/src/github.com/hashicorp/go-msgpack/codec/binc.go:280-302 | Writes a length. |
| BincCodec.DecDriver.constructor | Godeps/_workspace/src/github.com/hashicorp/go-msgpack/codec/binc.go:307-315 | A decoder starts with an empty dictionary. |
| BincCodec.DecDriver.DecodeString | Godeps/_workspace/src/github.com/hashicorp/go-msgpack/codec/binc.go:576-622 | Reads a token, gives its meaning and learns definitions. |
| BincCodec.DecDriver.DecLenFrom | Godeps/_workspace/src/github.com/hashicorp/go-msgpack/codec/binc.go:569-574 | Reads a length in the decoder's way. |
| Bytes.NumberOfBigEndian | Godeps/_workspace/src/github.com/hashicorp/memberlist/util.go:200-203 | Reading back a written number gives the number exactly when it fitted. |
| Bytes.BigEndian2 | Godeps/_workspace/src/github.com/hashicorp/memberlist/util.go:200-203 | The more significant of two bytes comes first. |
| Bytes.BigEndian4 | Godeps/_workspace/src/github.com/hashicorp/memberlist/util.go:200-203 | The more significant of four bytes come first. |

## Left out

- serfbort's own commands, RPC, configuration and shell execution; sockets, TCP streams, goroutines and logging.
- Clocks are a counter of state changes, so two changes never share a stamp; the suspicion timer's check and kill are one step, although the code drops a lock in between.
- Random sources (offsets, shuffles) are parameters; retransmitLimit, suspicionTimeout and pushPullScale are left out, and the limit is any number.
- Delegates and metrics do nothing, except that a message delegate is trusted to keep its byte limit; conflict and ping delegates and verifyProtocol are not modelled.
- AES-GCM and LZW are reduced to the lengths they produce; nothing is claimed about their contents.
- The shutdown flag and Leave after shutdown are not part of this model.
- MembershipSelf.AnnouncementsIncrease: requires that no number is drawn behind 2^32 - 1, because numbers repeat after a wrap; MembershipSelf.IncreaseIffNothingRepeats gives the exact condition for all runs.
- MembershipProbing.ProbedOncePerRound: takes rounds in which no node joins, as an insert moves another node to the end of the list.
- Memberlists.Memberlist.IncarnationAbove: requires a claim below 2^32 - 1, because the loop does not end for that one claim; the caller's mode records it.
- Memberlists.Memberlist.ResetNodes: does not say which permutation the shuffle leaves, because it is random; reaping and shuffling are one step.
- TransmitLimitedQueues.SortDescending: does not fix the order of equal transmit counts, because the library's sort is not stable.
- TransmitLimitedQueues.TransmitLimitedQueue.QueueBroadcast: broadcasts are values with an identity, not shared objects, so aliasing of a broadcast between queues is not captured.
- DnsMessages.NamesSurvive: covers names without dots and backslashes inside labels, because the keys of escaped names keep stale bytes of the text buffer; DomainPacking.PackDomainName models those keys as they are.
- DnsEscapes.PackedIsAWireName: excludes texts that start with a dot, because they are written with an empty label in front.
- DomainPacking.PackLabels: the string copy of the buffer that the code caches between escapes is read from the buffer itself; the cache always equals it when it is read.
- DomainPacking.PackDomainName: promises nothing about the bytes behind the start when the call fails, and takes a compression map that is not nil.
- MsgpackDecoder.Driver.ReadContainerLen: takes the descriptor of a container of the type it is asked for, as decoding into a nil interface finds it; nil and mismatched descriptors belong to typed decoding, which is left out.
- MsgpackDecoder.Driver.DecodeNaked: ends at a float or an extension with the outcome NotModelled.
- MsgpackDecoder.Decoder.Decode: ends at a float, an extension or a repeated key with the outcome NotModelled; the code decodes a repeated key into the old value.
- The other resource record fields, message headers, Len, zone scanning, DNSSEC, TSIG, servers and transfers of miekg/dns.
- PrevLabel and SplitDomainName, which only repackage Split.
- Reflection in the codecs: values are trees, and structs, typed slices and pointers are left out, as are floats, extensions and timestamps.
- MsgpackRoundTrip.RoundTrip: requires lengths below 2^32, because longer ones do not fit their field, and keys that stay distinct, because decoding a key twice into one map reuses the old value.
- MsgpackDecoder.Decoder.DecMapIntfIntf: keeps pairs in stream order where the code fills an unordered map; a map that is encoded stands in the order in which the encoder ranges over it.
- MsgpackDecoder.Driver.DecodeText: an empty byte slice is decoded as a nil slice by the code; both are the empty contents here.
- CodecWriter.BytesEncWriter.WriteNumber: one loop of shifts stands for the unrolled writes of 16, 32 and 64 bits.
- CodecReader.BytesDecReader.ReadNumberOf: one method stands for the reads of 8, 16, 32 and 64 bits.
- BincCodec.DecDriver.DecodeString: reads its own descriptor, which the code does in initReadNext; the scratch array of decUint is left out.
- binc integers, floats and containers; negative integers whose magnitude starts with 0xff bytes do not survive there.
