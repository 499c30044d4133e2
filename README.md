# Sensor network simulation: wireless medium and CSMA MAC layer in Dafny

This project models the two coupled pieces at the centre of the sensor network
simulator and proves properties of them.

- **The shared wireless medium** (`Medium` in `Medium2.py`). It keeps three
  tables:
  - the registered nodes, with their positions and radii;
  - the signals in flight, each with a countdown that starts at 4;
  - the signal/node pairs, each recording that a node is in range of a signal,
    with a sticky collision flag.

  Every tick runs three passes:
  1. pass 1 pairs every signal with every node in range of it;
  2. pass 2 marks every pair of a node that sees more than one signal as
     collided;
  3. pass 3 lowers every countdown and retires the signals, and their pairs,
     that reach 0.

  A node that listens hears CLEAR, BUSY or the packet. It hears the packet
  only on the last tick of a signal that reached it cleanly.
- **The p-persistent CSMA layer of one node** (`MultipleAccess` in
  `MultipleAccess.py`). It owns:
  - an outgoing and an incoming queue, both filled at the front and emptied
    from the end;
  - a one-slot ACK holder;
  - a backoff counter and an ACK-wait counter;
  - the list of expected ACK senders;
  - a three-state machine: QUEUE_IS_EMPTY, OUTGOING_MESSAGE_PENDING and
    WAITING_FOR_ACK.

  A message is validated before it is queued. Within one update, incoming
  handling runs first, then the state machine step.

## How the model is built

Both source files are imperative, and so is the model. Each Python object is
a Dafny `class` whose fields its methods update in place, branch for branch,
with two exceptions:

- When every ACK is in, `Csma.MultipleAccess.WaitingForAck` dequeues the
  acknowledged packet, while the source pops the end of the queue; see
  Findings. The source's step is modelled too, as
  `CsmaSpec.AsWrittenWaitingStep`.
- `WirelessMedium.Medium.PairSignal`, the inner loop of
  `WirelessMedium.Medium.CreateSignalNodePairs`, skips a pair lookup that
  errs, where the source raises. The medium invariant makes that error
  unreachable; see Left out.

The parts of the model:

- `WirelessMedium.Medium` keeps the tables as `seq` fields. Its loops carry
  invariants, and each method is proved against a function on the tables in
  module `MediumTables`: `ensures State() == Tick(old(State()))`.
- `Csma.MultipleAccess` keeps its queues and counters as fields. Each method
  is proved against a function on a snapshot of its fields, in module
  `CsmaSpec`: `ensures Snap() == WaitingStep(old(Snap()))`.
- The properties are lemmas about those functions, in `MediumLemmas`,
  `MediumTiming` and `CsmaLemmas`.
- Both classes keep an invariant, `Valid`, through every operation:
  - for the medium: increasing signal ids, countdowns in 1..4, at most one
    pair per signal and node, and every pair names a live signal;
  - for the MAC layer: backoff in 0..3, ACK wait in 0..200, and consistent
    state, queue and expected ACKs.

Python details that the model reproduces:

- **The ACK-list alias.** In Python, the list of expected ACK senders *is* the
  receiver list of the queued packet. An acknowledged sender therefore also
  vanishes from that packet's receivers, and a retransmission addresses only
  the receivers that are still missing. The snapshot keeps the index of the
  aliased packet, `alias`, and applies every removal to both lists.
- **Python list calls.** `list.remove` removes the first equal element, `pop()`
  takes the last, and `insert(0, …)` puts at the front.
- **Exceptions as results.** Every exception the code raises becomes an error
  value that leaves the state as it was at the point of the raise:
  - lookup errors in the medium are `MediumError`;
  - the validation errors of `_validate_packet`, and the `KeyError` of reading
    a missing `receiver_id`, are `SendError`.
- **Oracles.** The Bernoulli trial is a `trial: bool` parameter. The backoff
  draw is a `draw` parameter in 0..3.
- **Dynamic values.** Message dictionaries have optional keys and values of
  any type (`Dyn`). Node ids are strings.

Two places where the code does less than a reader of its comments might
expect; the model follows the code:

- A non-broadcast message is refused only when its receivers are `None`. An
  empty receiver list is accepted (`MultipleAccess.py:80-81`).
- After a timeout, the packet to retransmit is not always at the end of the
  outgoing queue. An ACK queued while waiting can sit behind it; see
  Findings.

## Model

The table names, for each function that only computes, the lemmas that state
its properties:

- `MediumTables.InRange` (Medium2.py:141-143): `MediumTiming.InRangeDisc`,
  `MediumTiming.SenderReachesItself`, `MediumTables.AddPairsForSignalSpec`.
- `MediumTables.Tick` (Medium2.py:145-148): `MediumLemmas.TickKeepsInv`,
  `MediumLemmas.CollisionSticky`, `MediumTiming.SingleTick`,
  `MediumTiming.PropagationTiming`.
- `CsmaSpec.IsForMe` (MultipleAccess.py:117-124):
  `CsmaLemmas.BroadcastDelivery`, `CsmaLemmas.IncomingSpec`.
- `CsmaSpec.RequiresAck` (MultipleAccess.py:126-128):
  `CsmaLemmas.AckOnlyForAddressedData`, `CsmaLemmas.PendingTransmitsTail`.
- `CsmaSpec.Incoming` (MultipleAccess.py:204-215): `CsmaLemmas.IncomingSpec`,
  `CsmaLemmas.IncomingKeepsInv`.
- `CsmaSpec.PendingStep` (MultipleAccess.py:137-156):
  `CsmaLemmas.PendingQuiet`, `CsmaLemmas.PendingTransmitsTail`,
  `CsmaLemmas.PendingKeepsInv`.
- `CsmaSpec.WaitingStep` (corrected MultipleAccess.py:181-199):
  `CsmaLemmas.WaitingConsumesAck`, `CsmaLemmas.TimeoutRetransmits`,
  `CsmaLemmas.AllAckedDequeues`, `CsmaLemmas.WaitingKeepsInv`.
- `CsmaSpec.AsWrittenWaitingStep` (MultipleAccess.py:181-199, as written):
  `CsmaLemmas.AsWrittenWaitingKeepsInv`, `CsmaLemmas.AsWrittenDropsUnsentAck`.
- `CsmaSpec.OutgoingStep` (MultipleAccess.py:217-230): `CsmaLemmas.EmptyStep`
  and the lemmas of each state above.
- `CsmaSpec.MacStep` and `CsmaSpec.AsWrittenMacStep`
  (MultipleAccess.py:232-236): `CsmaLemmas.MacStepKeepsInv`,
  `CsmaLemmas.AsWrittenMacStepKeepsInv`, `CsmaLemmas.AsWrittenAgrees`,
  `CsmaLemmas.NoDequeueWhileUnacked`.

| member | source | states |
|---|---|---|
| `MediumTables.GetNodeById` | Medium2.py:55-60 | succeeds exactly when one node has the id, and returns it; otherwise the "zero or multiple" error |
| `MediumTables.GetSignalById` | Medium2.py:62-67 | succeeds exactly when one signal has the id, and returns it; otherwise the error |
| `MediumTables.GetPairByBothIds` | Medium2.py:69-76 | error exactly when more than one pair has both ids; `None` exactly when no pair has them; otherwise a pair of the table with both ids |
| `MediumTables.PairsOfNode` | Medium2.py:78-79 | a pair is in the result exactly when it is in the table and names the node |
| `MediumTables.PairsWithoutSignal` | Medium2.py:81-82 | a pair is kept exactly when it is in the table and does not name the signal |
| `MediumTables.Propagated` | Medium2.py:89-99 | succeeds exactly when the packet's sender is registered once; then appends one signal with that node's position and radius, the next id and countdown 4, and increments the counter; otherwise the error |
| `MediumTables.Listen` | Medium2.py:153-171 | CLEAR exactly when the node has no pair; the packet exactly when it has a single clean pair whose unique signal has countdown 1; the lookup error exactly when that signal is not unique; BUSY otherwise |
| `MediumTables.AddPairsForSignalSpec` | Medium2.py:105-113 | the inner loop of pass 1 keeps the old pairs as a prefix and adds clean pairs with consecutive ids, each joining the signal to a node in range; every node in range ends up paired; keys stay distinct |
| `MediumTables.AddPairsSpec` | Medium2.py:101-113 | pass 1 over all signals: the same, for every in-range signal/node combination |
| `MediumTables.AgedSpec` | Medium2.py:119-126 | pass 3 keeps, lowered by one, exactly the signals whose countdown was above 1 |
| `MediumTables.DropExpiredSpec` | Medium2.py:120-125 | a pair survives pass 3 exactly when its signal is not retired |
| `Packets.RemoveFirst` | Medium2.py:137 | `list.remove`, shared by the medium and the MAC layer: unchanged when the element is absent; otherwise one element fewer, one occurrence fewer by multiset, nothing lost but the removed one, nothing added |
| `MediumLemmas.MoveCollidedSpec` | Medium2.py:136-139 | the inner loop of pass 2 keeps the same pairs with the moved ones marked collided, the length, the per-node counts and distinct keys |
| `MediumLemmas.RecordCollisionsSpec` | Medium2.py:128-139 | pass 2 keeps the same signal/node keys; a pair's flag becomes set exactly when it was set already or its node has more than one pair; a flag is never cleared |
| `MediumLemmas.SignalIdsAtMostOne` | Medium2.py:97-99 | with increasing ids, at most one signal has a given id |
| `MediumLemmas.PropagateKeepsInv` | Medium2.py:89-99 | propagating keeps the medium invariant, and the new signal's id exceeds every older id |
| `MediumLemmas.CreatePairsSpec` | Medium2.py:101-113 | after pass 1 every in-range signal/node combination has exactly one pair; old pairs are kept as a prefix; new pairs are clean and in range |
| `MediumLemmas.CreatePairsKeepsInv` | Medium2.py:101-113 | pass 1 keeps the invariant |
| `MediumLemmas.RecordCollisionsKeepsInv` | Medium2.py:128-139 | pass 2 keeps the invariant |
| `MediumLemmas.UpdatePropagationCountersKeepsInv` | Medium2.py:115-126 | pass 3 keeps the invariant; in particular every remaining pair names a live signal |
| `MediumLemmas.TickKeepsInv` | Medium2.py:145-148 | a whole tick keeps the invariant |
| `MediumLemmas.ListenNeverFails` | Medium2.py:165 | under the invariant every pair's signal is unique, so the lookup in `listen` cannot fail |
| `MediumLemmas.CollisionSticky` | Medium2.py:128-139 | a collided pair that survives a tick is still collided |
| `MediumLemmas.CollidedNodeBusy` | Medium2.py:158-159 | a node with a collided pair hears BUSY |
| `MediumLemmas.CollidedPairStaysBusy` | Medium2.py:145-171 | a node with a collided pair whose signal survives the tick still hears BUSY after it |
| `MediumTiming.SingleTick` | Medium2.py:145-148 | on a medium carrying one signal, a tick keeps all its pairs clean and in range, pairs every node in range, and lowers the countdown, or empties the medium at the last tick |
| `MediumTiming.SingleListen` | Medium2.py:153-171 | on such a medium, a node out of reach hears CLEAR, a node in reach hears the packet at countdown 1 and BUSY before |
| `MediumTiming.PropagationTiming` | Medium2.py:89-171 | a packet sent on a quiet medium: a node in reach hears BUSY, BUSY, then the packet, then CLEAR over four ticks, a node out of reach hears CLEAR throughout, and the medium ends empty |
| `MediumTiming.SenderReachesItself` | Medium2.py:141-143 | the sender is in range of its own signal |
| `MediumTiming.InRangeDisc` | Medium2.py:141-143 | `in_range` is a closed disc about the signal's captured origin: a node on the rim is in range, and a larger radius keeps every node in range that was |
| `WirelessMedium.Medium.constructor` | Medium2.py:45-50 | empty tables, counters at 0, invariant holds |
| `WirelessMedium.Medium.RegisterNodes` | Medium2.py:84-87 | appends the records in order; nothing else changes |
| `WirelessMedium.Medium.Propagate` | Medium2.py:89-99 | the fields become `Propagated` of the old ones, or stay as they were on the error; invariant kept |
| `WirelessMedium.Medium.CreateSignalNodePairs` | Medium2.py:101-104 | the outer loop of pass 1 leaves the fields as `CreatePairs` says |
| `WirelessMedium.Medium.PairSignal` | Medium2.py:105-113 | the inner loop for one signal leaves the pairs as `AddPairsForSignal` says |
| `WirelessMedium.Medium.RecordCollisions` | Medium2.py:128-135 | the outer loop of pass 2 leaves the fields as `RecordCollisions` says |
| `WirelessMedium.Medium.MarkCollided` | Medium2.py:136-139 | the inner loop for one crowded node removes, marks and re-appends each of its pairs |
| `WirelessMedium.Medium.DeleteSignalNodePairsBySignalId` | Medium2.py:81-82 | exactly the pairs of the signal are deleted |
| `WirelessMedium.Medium.UpdatePropagationCounters` | Medium2.py:115-126 | the in-place decrement loop leaves the fields as pass 3 says |
| `WirelessMedium.Medium.Update` | Medium2.py:145-148 | the fields become `Tick` of the old ones; invariant kept |
| `CsmaSpec.ModeOf` | MultipleAccess.py:76-77 | a value names a mode exactly when it is one of the three mode strings |
| `CsmaSpec.ValidatePacket` | MultipleAccess.py:68-83 | accepts exactly the well-formed messages and returns the packet with their fields; each error is returned exactly under its condition, checked in source order |
| `CsmaSpec.ValidateToRaw` | MultipleAccess.py:68-83 | every packet, as a message, passes validation unchanged |
| `CsmaSpec.Submitted` | MultipleAccess.py:45-52 | a missing receiver key raises before validation; an integer receiver becomes a one-element list; otherwise accepted exactly when validation accepts, with the message's fields |
| `CsmaSpec.IntReceiverAsList` | MultipleAccess.py:47-48 | an integer receiver is treated exactly as the list holding it |
| `CsmaSpec.MakeAck` | MultipleAccess.py:130-135 | the ACK is an ACK, needs no ACK, is addressed to its target, comes from this node and passes validation |
| `CsmaSpec.Sent` | MultipleAccess.py:52 | the message goes to the front of the outgoing queue |
| `CsmaSpec.Prioritized` | MultipleAccess.py:63-66 | the ACK goes to the end of the outgoing queue, where the next transmission takes it |
| `CsmaSpec.Received` | MultipleAccess.py:56-61 | `None` exactly when the incoming queue is empty; otherwise its last packet, removed; nothing else changes |
| `Packets.RemoveFirstSplices` | MultipleAccess.py:187 | `list.remove` takes out exactly the first occurrence: the elements before and after it are kept, in order |
| `CsmaSpec.InitialInv` | MultipleAccess.py:24-37 | the initial fields satisfy the invariant |
| `CsmaLemmas.MacStepKeepsInv` | MultipleAccess.py:232-236 | a corrected update keeps the invariant, so backoff stays in 0..3 and ACK wait in 0..200 |
| `CsmaLemmas.AsWrittenMacStepKeepsInv` | MultipleAccess.py:232-236 | an update as written keeps the invariant too: backoff in 0..3, ACK wait in 0..200, the alias well formed |
| `CsmaLemmas.AsWrittenAgrees` | MultipleAccess.py:181-199 | the update as written equals the corrected one unless the node is in WAITING_FOR_ACK with every ACK in and the acknowledged packet not at the end of the queue |
| `CsmaLemmas.SentKeepsInv` | MultipleAccess.py:45-52 | queueing a message keeps the invariant, the alias moving with it |
| `CsmaLemmas.PrioritizedKeepsInv` | MultipleAccess.py:63-66 | queueing an ACK keeps the invariant |
| `CsmaLemmas.ReceivedKeepsInv` | MultipleAccess.py:56-61 | receiving keeps the invariant |
| `CsmaLemmas.IncomingKeepsInv` | MultipleAccess.py:204-215 | incoming handling keeps the invariant and the state, and never shrinks the outgoing queue |
| `CsmaLemmas.PendingKeepsInv` | MultipleAccess.py:137-156 | the pending step keeps the invariant for any draw in 0..3 |
| `CsmaLemmas.TransmissionKeepsInv` | MultipleAccess.py:143-152 | a transmission keeps the invariant: the aliased packet is the one sent, needs ACKs, and its receivers are the expected list |
| `CsmaLemmas.AcknowledgedKeepsInv` | MultipleAccess.py:184-188 | consuming an ACK keeps the aliased packet's receivers equal to the expected list |
| `CsmaLemmas.WaitingKeepsInv` | MultipleAccess.py:181-199 | the corrected waiting step keeps the invariant |
| `CsmaLemmas.AsWrittenWaitingKeepsInv` | MultipleAccess.py:181-199 | the waiting step as written, with its pop of the queue's end, keeps the invariant |
| `CsmaLemmas.EmptyStep` | MultipleAccess.py:218-221 | QUEUE_IS_EMPTY moves to OUTGOING_MESSAGE_PENDING exactly when the outgoing queue is non-empty, and nothing else changes |
| `CsmaLemmas.PendingQuiet` | MultipleAccess.py:137-156 | a packet is sent exactly when the backoff is 0, the medium is CLEAR and the trial succeeds; otherwise only the backoff changes, staying in 0..3: decremented when positive, set to the draw on any other sample, kept on a failed trial |
| `CsmaLemmas.PendingTransmitsTail` | MultipleAccess.py:143-152 | the packet sent is the end of the queue; one that needs ACKs stays queued with the expected list set to its receivers, ACK wait 200 and state WAITING_FOR_ACK; any other is dequeued, QUEUE_IS_EMPTY exactly when the queue is then empty |
| `CsmaLemmas.WaitingConsumesAck` | MultipleAccess.py:183-189 | with ACKs outstanding and time left, a held ACK from an expected sender removes exactly one occurrence of that sender, from the expected list and from the waiting packet's receivers alike, and empties the holder; any other holder changes nothing; the counter goes down by one |
| `CsmaLemmas.TimeoutRetransmits` | MultipleAccess.py:190-192 | on timeout the expected list is cleared, the state becomes OUTGOING_MESSAGE_PENDING and the queue is untouched, so the next transmission is the end of the queue |
| `CsmaLemmas.AllAckedDequeues` | MultipleAccess.py:193-199 | with no ACK outstanding the counter is reset and exactly one packet, the acknowledged one, is dequeued; the others stay in order; the state is by queue emptiness |
| `CsmaLemmas.BroadcastDelivery` | MultipleAccess.py:117-124 | `_is_for_me`: a node ignores its own broadcast unless it lists itself; a broadcast from another node, or one that lists it, is put at the front of the incoming queue with no ACK |
| `CsmaLemmas.AckOnlyForAddressedData` | MultipleAccess.py:126-128 | `_requires_ack`: hearing a packet queues exactly one ACK when the packet is meant for this node and is neither a broadcast nor an ACK, and none otherwise |
| `CsmaLemmas.IncomingSpec` | MultipleAccess.py:204-215 | a packet not for this node (not a broadcast from another node, and not listing it as a receiver) changes nothing; an ACK overwrites the holder and is not delivered; any other packet is put at the front of the incoming queue, after an ACK to its sender is added at the end of the outgoing queue when it needs one |
| `CsmaLemmas.NoDequeueWhileUnacked` | MultipleAccess.py:181-199 | while ACKs are outstanding an update sends nothing, the queue only grows, and every entry keeps its place, except that the waiting packet's receivers may shrink |
| `CsmaLemmas.FifoOrder` | MultipleAccess.py:52 | a queue filled at the front and emptied from the end hands packets out in arrival order, after everything already queued |
| `CsmaLemmas.ReceivedTakesOldest` | MultipleAccess.py:56-61 | each receive hands out the next packet in that order |
| `CsmaLemmas.QueueingIsArrival` | MultipleAccess.py:215 | queueing a message and delivering a packet both insert at the front |
| `CsmaLemmas.AckSentFirst` | MultipleAccess.py:63-66 | an ACK added with high priority is the next packet sent, and sending it leaves the queue as it was before |
| `CsmaLemmas.WaitingKeepsAcks` | MultipleAccess.py:193-199 | corrected model: an update in WAITING_FOR_ACK loses no queued ACK |
| `CsmaLemmas.ScenarioReachable` | MultipleAccess.py:45-156 | a fresh node that queues a unicast packet and sends it on a clear medium reaches the state the finding starts from |
| `CsmaLemmas.AsWrittenDropsUnsentAck` | MultipleAccess.py:193-199 | as written: from that state, an ACK to another node is queued, then the awaited ACK arrives, and the next update drops the unsent ACK and keeps the acknowledged packet, which is then sent again |
| `CsmaLemmas.IntendedKeepsUnsentAck` | MultipleAccess.py:193-199 | corrected: on the same scenario, the acknowledged packet leaves the queue and the ACK is the next packet sent |
| `CsmaLemmas.NodeUpdateSpec` | MultipleAccess.py:204-236 | on a valid medium, listening never fails; an update is the MAC step on what the node hears, then the propagation of the packet sent; a propagation that fails leaves the node as incoming handling made it; both invariants are kept |
| `CsmaLemmas.OutgoingUpdateKeepsInv` | MultipleAccess.py:217-230 | the state machine step against the medium keeps both invariants |
| `Csma.MultipleAccess.constructor` | MultipleAccess.py:24-41 | the initial fields; invariant holds |
| `Csma.MultipleAccess.SendMessage` | MultipleAccess.py:45-52 | the fields become `Sent` of the submitted packet, or stay unchanged with the error |
| `Csma.MultipleAccess.ReceiveMessage` | MultipleAccess.py:56-61 | fields and result are `Received` of the old fields |
| `Csma.MultipleAccess.SendHighPriorityMessage` | MultipleAccess.py:63-66 | the fields become `Prioritized` of the old ones |
| `Csma.MultipleAccess.HandleIncomingPackets` | MultipleAccess.py:204-215 | the fields become `Incoming` of what the node hears, or stay unchanged when the lookup raises |
| `Csma.MultipleAccess.OutgoingMessagePending` | MultipleAccess.py:137-156 | MAC fields and medium become `OutgoingUpdate` of the old ones; the behaviour of the helpers at MultipleAccess.py:85-114 is inlined |
| `Csma.MultipleAccess.TransmitNext` | MultipleAccess.py:142-152 | on a successful trial the end of the queue is propagated; the fields become `Transmission` of the old ones and the medium `Propagated`, or both stay unchanged when propagation raises |
| `Csma.MultipleAccess.WaitingForAck` | MultipleAccess.py:181-199 | the fields become the corrected `WaitingStep` of the old ones |
| `Csma.MultipleAccess.HandleOutgoingPackets` | MultipleAccess.py:217-230 | dispatch on the state; MAC fields and medium as `OutgoingUpdate` says |
| `Csma.MultipleAccess.Update` | MultipleAccess.py:232-236 | MAC fields and medium become `NodeUpdate` of the old ones; both invariants kept |

## Left out

- Printing: `print_info` and the `print_*` helpers are debug output.
- `Node.py` is not part of this model. It is the tree-formation application,
  a client of `send_message` and `receive_message`.
- `Simulation.py` is not part of this model. It is the driver loop, with
  rendering, random topology and file I/O. Its ordering is not modelled: all
  nodes update, then the medium ticks once.
- Randomness: the trial and the backoff draw are parameters. The
  probability 0.05 and the uniform distribution are not modelled.
- Coordinates and radii are integers. Python accepts floats there; the
  squared-distance test is the same.
- The undefined-state exception (`MultipleAccess.py:201-202`, `:229-230`)
  cannot happen: the state type has exactly three values.
- Connecting the objects: `connect_to_the_medium` and `connect_to_the_nodes`
  become constructor arguments and `RegisterNodes`.
- Object identity in the medium. A signal holds the packet object itself, so
  in Python a later shrink of its receiver list is also visible in the copy in
  flight. The model gives the medium a value copy. The queued packet shrinks
  as in Python.
- Mutation of the caller's message: the integer-receiver rewrite changes the
  caller's dictionary even when validation then fails. The model works on a
  value.
- Queueing the same dictionary twice: in Python, the two entries would then
  share one receiver list.
- Message keys other than mode, sender, receiver and payload are not
  modelled. A missing `payload` key is not modelled either.
- `WirelessMedium.Medium.PairSignal`, and so
  `WirelessMedium.Medium.CreateSignalNodePairs`, skips on a lookup error
  rather than raising. That error is unreachable under the medium invariant
  (`MediumLemmas.DistinctAtMostOne`).
- Listening and the table lookups are functions of the medium's fields rather
  than methods, since they change nothing.
- `Csma.MultipleAccess.WaitingForAck` implements the corrected dequeue, not
  the source's pop of the queue's end; see Findings. The source's step is
  `CsmaSpec.AsWrittenWaitingStep`, inside `CsmaSpec.AsWrittenOutgoingStep`
  and `CsmaSpec.AsWrittenMacStep`. `CsmaLemmas.AsWrittenWaitingKeepsInv` and
  `CsmaLemmas.AsWrittenMacStepKeepsInv` prove the invariant for it, and
  `CsmaLemmas.AsWrittenAgrees` shows the two programs differ only in the
  finding's case.
- `Csma.MultipleAccess.HandleOutgoingPackets`: dispatches to the corrected
  waiting step.
- `Csma.MultipleAccess.Update`: is `NodeUpdate` of the corrected program. In
  WAITING_FOR_ACK the node neither listens nor transmits, so the medium side
  is as in the source.
- `CsmaSpec.WaitingStep`: the corrected waiting step.
- `CsmaSpec.OutgoingStep`: uses the corrected waiting step.
- `CsmaSpec.MacStep`: uses the corrected waiting step.
- `CsmaSpec.OutgoingUpdate`: uses the corrected waiting step.
- `CsmaSpec.NodeUpdate`: uses the corrected waiting step.
- `CsmaLemmas.WaitingKeepsInv`: proved for the corrected waiting step;
  `CsmaLemmas.AsWrittenWaitingKeepsInv` covers the source's.
- `CsmaLemmas.MacStepKeepsInv`: proved for the corrected update;
  `CsmaLemmas.AsWrittenMacStepKeepsInv` covers the source's.
- `CsmaLemmas.NodeUpdateSpec`: states the corrected update against the
  medium.
- `CsmaLemmas.OutgoingUpdateKeepsInv`: proved for the corrected state
  machine step against the medium.

## Findings

| source | as written | input that shows it | evidently intended | confidence | as-written member | corrected member |
|---|---|---|---|---|---|---|
| MultipleAccess.py:193-199 | once no ACK is outstanding, `_outgoing_queue.pop()` removes the END of the outgoing queue | node "a" waits for the ACK of its unicast to "b"; a unicast from "c" to "a" arrives, so an ACK to "c" is appended at the end; then the ACK from "b" arrives; at the next update the ACK to "c" is dropped unsent, and the acknowledged packet, its receivers now empty, stays queued and is sent again | dequeue the packet that was acknowledged, wherever it stands in the queue. The commented-out earlier version says so beside its pops (MultipleAccess.py:168, :178). | high; not executed | `CsmaSpec.AsWrittenWaitingStep`, `CsmaLemmas.AsWrittenDropsUnsentAck` | `CsmaSpec.WaitingStep`, `CsmaLemmas.IntendedKeepsUnsentAck`, `CsmaLemmas.AllAckedDequeues`, `CsmaLemmas.WaitingKeepsAcks` |
