/** The MAC object of one node: its queues, counters, ACK holder and state
    are fields that its methods update in place, branch for branch as the
    simulator does, with one exception: with every ACK in, `WaitingForAck`
    dequeues the acknowledged packet where the simulator pops the end of
    the queue (module CsmaSpec has both steps). Each method is proved to
    leave the fields (and, when it transmits, the medium) as the
    corresponding function of module CsmaSpec says, and the invariant
    `Valid` is kept throughout. The random trial and the backoff draw are
    parameters. */
module Csma {
  import opened Packets
  import opened MediumTables
  import opened WirelessMedium
  import opened CsmaSpec
  import opened CsmaLemmas

  class MultipleAccess {
    const nodeId: string
    const medium: Medium
    var state: MacState
    var incomingQueue: seq<Packet>
    var outgoingQueue: seq<Packet>
    var incomingAck: Option<Packet>
    var backoffCounter: int
    var ackWaitCounter: int
    var expectedAcks: seq<Dyn>
    /** The index in `outgoingQueue` of the packet whose receiver list
        `expectedAcks` is, while the two are one list. */
    var ackAlias: Option<nat>

    /** The fields as one value. */
    function Snap(): Mac
      reads this
    {
      Mac(state, incomingQueue, outgoingQueue, incomingAck, backoffCounter, ackWaitCounter, expectedAcks, ackAlias)
    }

    ghost predicate Valid()
      reads this
    {
      MacInv(Snap())
    }

    /** A node with empty queues, idle, both counters at 0, connected to
        `m`. */
    constructor (id: string, m: Medium)
      ensures nodeId == id && medium == m
      ensures Snap() == Initial
      ensures Valid()
    {
      nodeId := id;
      medium := m;
      state := MacState.QueueIsEmpty;
      incomingQueue := [];
      outgoingQueue := [];
      incomingAck := None;
      backoffCounter := 0;
      ackWaitCounter := 0;
      expectedAcks := [];
      ackAlias := None;
      InitialInv();
    }

    /** Queues a message at the front of the outgoing queue, after wrapping
        a single integer receiver into a list, or raises, queueing nothing. */
    method SendMessage(msg: RawMessage) returns (o: Outcome<SendError>)
      requires Valid()
      modifies this
      ensures Submitted(msg).Ok? ==> o == Pass && Snap() == Sent(old(Snap()), Submitted(msg).value)
      ensures Submitted(msg).Err? ==> o == Fail(Submitted(msg).error) && Snap() == old(Snap())
      ensures Valid()
    {
      if msg.receiver.None? {
        return Fail(ReceiverKeyMissing);
      }
      var message := msg;
      if message.receiver.value.IntValue? {
        message := message.(receiver := Some(ListValue([message.receiver.value])));
      }
      var checked := ValidatePacket(message);
      if checked.Err? {
        return Fail(checked.error);
      }
      SentKeepsInv(Snap(), checked.value);
      outgoingQueue := [checked.value] + outgoingQueue;
      if ackAlias.Some? {
        ackAlias := Some(ackAlias.value + 1);
      }
      o := Pass;
    }

    /** Takes the oldest packet off the incoming queue, if there is one. */
    method ReceiveMessage() returns (p: Option<Packet>)
      requires Valid()
      modifies this
      ensures (Snap(), p) == Received(old(Snap()))
      ensures Valid()
    {
      ReceivedKeepsInv(Snap());
      if incomingQueue != [] {
        p := Some(incomingQueue[|incomingQueue| - 1]);
        incomingQueue := incomingQueue[..|incomingQueue| - 1];
      } else {
        p := None;
      }
    }

    /** Puts a packet at the end of the outgoing queue, to be sent next. */
    method SendHighPriorityMessage(p: Packet)
      requires Valid()
      modifies this
      ensures Snap() == Prioritized(old(Snap()), p)
      ensures Valid()
    {
      PrioritizedKeepsInv(Snap(), p);
      outgoingQueue := outgoingQueue + [p];
    }

    /** Listens and handles what is heard: an ACK meant for this node goes
        to the holder; any other packet meant for it is queued, after the
        ACK it needs. A failing lookup in the medium raises. */
    method HandleIncomingPackets() returns (o: Outcome<MediumError>)
      requires Valid()
      modifies this
      ensures Listen(medium.signals, medium.pairs, nodeId).Err? ==>
        o == Fail(Listen(medium.signals, medium.pairs, nodeId).error) && Snap() == old(Snap())
      ensures Listen(medium.signals, medium.pairs, nodeId).Ok? ==>
        o == Pass && Snap() == Incoming(old(Snap()), nodeId, Listen(medium.signals, medium.pairs, nodeId).value)
      ensures Valid()
    {
      var sample := Listen(medium.signals, medium.pairs, nodeId);
      if sample.Err? {
        return Fail(sample.error);
      }
      IncomingKeepsInv(Snap(), nodeId, sample.value);
      if sample.value.Delivered? && IsForMe(nodeId, sample.value.packet) {
        var packet := sample.value.packet;
        if IsAck(packet) {
          incomingAck := Some(packet);
        } else {
          if RequiresAck(packet) {
            SendHighPriorityMessage(MakeAck(nodeId, packet.sender));
          }
          incomingQueue := [packet] + incomingQueue;
        }
      }
      o := Pass;
    }

    /** The OUTGOING_MESSAGE_PENDING state: count the backoff down, or
        listen, and on a clear medium and a successful trial transmit. */
    method OutgoingMessagePending(trial: bool, draw: int) returns (o: Outcome<MediumError>)
      requires Valid() && state == MacState.OutgoingMessagePending && medium.Valid()
      requires 0 <= draw <= ContentionWindow
      modifies this, medium
      ensures Stepped(Snap(), medium.State(), o) == OutgoingUpdate(old(Snap()), nodeId, old(medium.State()), trial, draw)
      ensures Valid() && medium.Valid()
    {
      if backoffCounter == 0 {
        var sample := Listen(medium.signals, medium.pairs, nodeId);
        if sample.Err? {
          return Fail(sample.error);
        }
        if sample.value == Clear {
          if trial {
            o := TransmitNext();
          } else {
            o := Pass;
          }
        } else {
          backoffCounter := draw;
          o := Pass;
        }
      } else {
        backoffCounter := backoffCounter - 1;
        o := Pass;
      }
    }

    /** A successful trial: the packet at the end of the outgoing queue goes
        to the medium; then the machine waits for its ACKs, or dequeues it.
        A failing propagation raises before any field changes. */
    method TransmitNext() returns (o: Outcome<MediumError>)
      requires Valid() && state == MacState.OutgoingMessagePending && medium.Valid()
      modifies this, medium
      ensures Propagated(old(medium.State()), Last(old(outgoingQueue))).Err? ==>
        && o == Fail(Propagated(old(medium.State()), Last(old(outgoingQueue))).error)
        && Snap() == old(Snap()) && medium.State() == old(medium.State())
      ensures Propagated(old(medium.State()), Last(old(outgoingQueue))).Ok? ==>
        && o == Pass
        && Snap() == Transmission(old(Snap()))
        && medium.State() == Propagated(old(medium.State()), Last(old(outgoingQueue))).value
      ensures Valid() && medium.Valid()
    {
      ghost var before := Snap();
      TransmissionKeepsInv(before);
      var packet := outgoingQueue[|outgoingQueue| - 1];
      o := medium.Propagate(packet);
      if o.Fail? {
        return;
      }
      if RequiresAck(packet) {
        expectedAcks := packet.receivers;
        ackAlias := Some(|outgoingQueue| - 1);
        ackWaitCounter := AckWait;
        state := MacState.WaitingForAck;
      } else {
        outgoingQueue := outgoingQueue[..|outgoingQueue| - 1];
        if outgoingQueue == [] {
          state := MacState.QueueIsEmpty;
        }
      }
      assert Snap() == Transmission(before);
    }

    /** The WAITING_FOR_ACK state: consume a held ACK from an expected
        sender, time out, or, with every ACK in, dequeue the acknowledged
        packet. */
    method WaitingForAck()
      requires Valid() && state == MacState.WaitingForAck
      modifies this
      ensures Snap() == WaitingStep(old(Snap()))
      ensures Valid()
    {
      WaitingKeepsInv(Snap());
      if expectedAcks != [] && ackWaitCounter != 0 {
        if incomingAck.Some? {
          var sender := StrValue(incomingAck.value.sender);
          if sender in expectedAcks {
            expectedAcks := RemoveFirst(expectedAcks, sender);
            outgoingQueue := outgoingQueue[ackAlias.value := outgoingQueue[ackAlias.value].(receivers := expectedAcks)];
            incomingAck := None;
          }
        }
        ackWaitCounter := ackWaitCounter - 1;
      } else if expectedAcks != [] && ackWaitCounter == 0 {
        expectedAcks := [];
        ackAlias := None;
        state := MacState.OutgoingMessagePending;
      } else {
        ackWaitCounter := 0;
        var i := ackAlias.value;
        outgoingQueue := outgoingQueue[..i] + outgoingQueue[i + 1..];
        ackAlias := None;
        if outgoingQueue != [] {
          state := MacState.OutgoingMessagePending;
        } else {
          state := MacState.QueueIsEmpty;
        }
      }
    }

    /** Dispatches on the state of the machine. */
    method HandleOutgoingPackets(trial: bool, draw: int) returns (o: Outcome<MediumError>)
      requires Valid() && medium.Valid()
      requires 0 <= draw <= ContentionWindow
      modifies this, medium
      ensures Stepped(Snap(), medium.State(), o) == OutgoingUpdate(old(Snap()), nodeId, old(medium.State()), trial, draw)
      ensures Valid() && medium.Valid()
    {
      if state == MacState.QueueIsEmpty {
        if outgoingQueue != [] {
          state := MacState.OutgoingMessagePending;
        }
        o := Pass;
      } else if state == MacState.OutgoingMessagePending {
        o := OutgoingMessagePending(trial, draw);
      } else {
        WaitingForAck();
        o := Pass;
      }
    }

    /** One update: incoming handling, then the state machine. */
    method Update(trial: bool, draw: int) returns (o: Outcome<MediumError>)
      requires Valid() && medium.Valid()
      requires 0 <= draw <= ContentionWindow
      modifies this, medium
      ensures Stepped(Snap(), medium.State(), o) == NodeUpdate(old(Snap()), nodeId, old(medium.State()), trial, draw)
      ensures Valid() && medium.Valid()
    {
      o := HandleIncomingPackets();
      if o.Fail? {
        return;
      }
      o := HandleOutgoingPackets(trial, draw);
    }
  }
}
