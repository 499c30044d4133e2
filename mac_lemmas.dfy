/** Properties of the MAC steps of module CsmaSpec: the invariant, what each
    state of the machine does, the order in which queued packets come out,
    and the fact that a packet still waiting for ACKs is never dequeued. */
module CsmaLemmas {
  import opened Packets
  import opened MediumTables
  import opened MediumLemmas
  import opened CsmaSpec

  // ---------------------------------------------------------------- the invariant

  lemma SentKeepsInv(m: Mac, p: Packet)
    requires MacInv(m)
    ensures MacInv(Sent(m, p))
  {
    var r := Sent(m, p);
    if m.alias.Some? {
      assert r.outgoing[m.alias.value + 1] == m.outgoing[m.alias.value];
    }
  }

  lemma PrioritizedKeepsInv(m: Mac, p: Packet)
    requires MacInv(m)
    ensures MacInv(Prioritized(m, p))
  {
    var r := Prioritized(m, p);
    if m.alias.Some? {
      assert r.outgoing[m.alias.value] == m.outgoing[m.alias.value];
    }
  }

  lemma ReceivedKeepsInv(m: Mac)
    requires MacInv(m)
    ensures MacInv(Received(m).0)
  {
  }

  lemma IncomingKeepsInv(m: Mac, me: string, heard: Heard)
    requires MacInv(m)
    ensures MacInv(Incoming(m, me, heard))
    ensures Incoming(m, me, heard).state == m.state
    ensures |Incoming(m, me, heard).outgoing| >= |m.outgoing|
  {
    if heard.Delivered? && IsForMe(me, heard.packet) && !IsAck(heard.packet) && RequiresAck(heard.packet) {
      PrioritizedKeepsInv(m, MakeAck(me, heard.packet.sender));
    }
  }

  lemma PendingKeepsInv(m: Mac, heard: Heard, trial: bool, draw: int)
    requires MacInv(m) && m.state == OutgoingMessagePending
    requires 0 <= draw <= ContentionWindow
    ensures MacInv(PendingStep(m, heard, trial, draw).0)
  {
  }

  lemma TransmissionKeepsInv(m: Mac)
    requires MacInv(m) && m.state == OutgoingMessagePending
    ensures MacInv(Transmission(m))
  {
  }

  lemma AcknowledgedKeepsInv(m: Mac, sender: Dyn)
    requires MacInv(m) && sender in m.expected
    ensures MacInv(Acknowledged(m, sender))
  {
    var r := Acknowledged(m, sender);
    assert m.alias.Some?;
    assert r.outgoing[m.alias.value].receivers == r.expected;
  }

  lemma WaitingKeepsInv(m: Mac)
    requires MacInv(m) && m.state == WaitingForAck
    ensures MacInv(WaitingStep(m))
  {
    if m.expected != [] && m.ackWait != 0 && m.ackHolder.Some? && StrValue(m.ackHolder.value.sender) in m.expected {
      AcknowledgedKeepsInv(m, StrValue(m.ackHolder.value.sender));
    }
  }

  /** Every update keeps the invariant; in particular the backoff counter
      stays within 0..3 and the ACK-wait counter within 0..200. */
  lemma MacStepKeepsInv(m: Mac, me: string, heard: Heard, trial: bool, draw: int)
    requires MacInv(m)
    requires 0 <= draw <= ContentionWindow
    ensures MacInv(MacStep(m, me, heard, trial, draw).0)
  {
    IncomingKeepsInv(m, me, heard);
    var m1 := Incoming(m, me, heard);
    match m1.state
    case QueueIsEmpty =>
    case OutgoingMessagePending => PendingKeepsInv(m1, heard, trial, draw);
    case WaitingForAck => WaitingKeepsInv(m1);
  }

  lemma AsWrittenWaitingKeepsInv(m: Mac)
    requires MacInv(m) && m.state == WaitingForAck
    ensures MacInv(AsWrittenWaitingStep(m))
  {
    if m.expected != [] && m.ackWait != 0 && m.ackHolder.Some? && StrValue(m.ackHolder.value.sender) in m.expected {
      AcknowledgedKeepsInv(m, StrValue(m.ackHolder.value.sender));
    }
  }

  /** The update as the simulator has it keeps the invariant too: the
      counters stay within their ranges and the alias stays well formed,
      even when the pop drops a packet other than the acknowledged one. */
  lemma AsWrittenMacStepKeepsInv(m: Mac, me: string, heard: Heard, trial: bool, draw: int)
    requires MacInv(m)
    requires 0 <= draw <= ContentionWindow
    ensures MacInv(AsWrittenMacStep(m, me, heard, trial, draw).0)
  {
    IncomingKeepsInv(m, me, heard);
    var m1 := Incoming(m, me, heard);
    match m1.state
    case QueueIsEmpty =>
    case OutgoingMessagePending => PendingKeepsInv(m1, heard, trial, draw);
    case WaitingForAck => AsWrittenWaitingKeepsInv(m1);
  }

  /** The two updates agree except in one case: in WAITING_FOR_ACK with
      every ACK in, when the acknowledged packet is not at the end of the
      queue. Elsewhere the corrected update is what the simulator does. */
  lemma AsWrittenAgrees(m: Mac, me: string, heard: Heard, trial: bool, draw: int)
    requires MacInv(m)
    ensures var m1 := Incoming(m, me, heard);
      (m1.state != WaitingForAck || m1.expected != [] || m1.alias == Some(|m1.outgoing| - 1)) ==>
        AsWrittenMacStep(m, me, heard, trial, draw) == MacStep(m, me, heard, trial, draw)
  {
    IncomingKeepsInv(m, me, heard);
  }

  // ---------------------------------------------------------------- the states

  /** QUEUE_IS_EMPTY moves to OUTGOING_MESSAGE_PENDING exactly when there is
      something to send, and changes nothing else. */
  lemma EmptyStep(m: Mac, heard: Heard, trial: bool, draw: int)
    requires m.state == QueueIsEmpty
    ensures var r := OutgoingStep(m, heard, trial, draw);
      && r.1.None?
      && (r.0.state == OutgoingMessagePending <==> m.outgoing != [])
      && r.0 == m.(state := r.0.state)
  {
  }

  /** In OUTGOING_MESSAGE_PENDING a packet is sent exactly when the backoff
      has run out, the medium is clear and the trial succeeds; otherwise
      only the backoff counter changes: it counts down when positive, is
      redrawn when the medium is not clear, and is kept otherwise. */
  lemma PendingQuiet(m: Mac, heard: Heard, trial: bool, draw: int)
    requires MacInv(m) && m.state == OutgoingMessagePending
    requires 0 <= draw <= ContentionWindow
    ensures var r := PendingStep(m, heard, trial, draw);
      && (r.1.Some? <==> m.backoff == 0 && heard == Clear && trial)
      && (r.1.None? ==> r.0 == m.(backoff := r.0.backoff) && 0 <= r.0.backoff <= ContentionWindow)
      && (m.backoff > 0 ==> r.0.backoff == m.backoff - 1)
      && (m.backoff == 0 && heard != Clear ==> r.0.backoff == draw)
      && (m.backoff == 0 && heard == Clear && !trial ==> r.0 == m)
  {
  }

  /** A transmission sends the packet at the end of the outgoing queue. One
      that needs ACKs stays queued while the machine waits for its receivers;
      any other is dequeued, and the machine goes idle exactly when the
      queue is then empty. */
  lemma PendingTransmitsTail(m: Mac, heard: Heard, trial: bool, draw: int)
    requires MacInv(m) && m.state == OutgoingMessagePending
    requires PendingStep(m, heard, trial, draw).1.Some?
    ensures var r := PendingStep(m, heard, trial, draw);
      && r.1 == Some(Last(m.outgoing))
      && (RequiresAck(Last(m.outgoing)) ==>
            && r.0.outgoing == m.outgoing
            && r.0.expected == Last(m.outgoing).receivers
            && r.0.ackWait == AckWait && r.0.state == WaitingForAck)
      && (!RequiresAck(Last(m.outgoing)) ==>
            && r.0.outgoing == m.outgoing[..|m.outgoing| - 1]
            && (r.0.state == QueueIsEmpty <==> r.0.outgoing == [])
            && r.0.state != WaitingForAck)
  {
  }

  /** While ACKs are outstanding and time is left, a held ACK from an
      expected sender removes exactly one occurrence of that sender, from the
      expected list and from the receivers of the waiting packet alike, and
      empties the holder; the counter goes down by one either way. */
  lemma WaitingConsumesAck(m: Mac)
    requires MacInv(m) && m.state == WaitingForAck
    requires m.expected != [] && m.ackWait != 0
    ensures var r := WaitingStep(m);
      && r.ackWait == m.ackWait - 1 && r.state == WaitingForAck
      && r.outgoing[m.alias.value].receivers == r.expected
      && |r.outgoing| == |m.outgoing|
      && (forall k :: 0 <= k < |m.outgoing| && k != m.alias.value ==> r.outgoing[k] == m.outgoing[k])
      && (m.ackHolder.Some? && StrValue(m.ackHolder.value.sender) in m.expected ==>
            && multiset(r.expected) == multiset(m.expected) - multiset{StrValue(m.ackHolder.value.sender)}
            && r.ackHolder.None?)
      && (!(m.ackHolder.Some? && StrValue(m.ackHolder.value.sender) in m.expected) ==>
            r == m.(ackWait := m.ackWait - 1))
  {
  }

  /** When the wait runs out with ACKs outstanding, the machine gives up
      waiting and leaves the queue alone, so the packet stays queued and is
      sent again from the end of the queue. */
  lemma TimeoutRetransmits(m: Mac, heard: Heard, trial: bool, draw: int)
    requires MacInv(m) && m.state == WaitingForAck
    requires m.expected != [] && m.ackWait == 0
    ensures var r := WaitingStep(m);
      && r.state == OutgoingMessagePending && r.expected == [] && r.outgoing == m.outgoing
      && (PendingStep(r, heard, trial, draw).1.Some? ==> PendingStep(r, heard, trial, draw).1 == Some(Last(m.outgoing)))
  {
  }

  /** With no ACK outstanding, exactly one packet is dequeued: the one
      that was acknowledged, whose receivers have all been cleared. Every
      other packet stays, in order, and the machine leaves WAITING_FOR_ACK. */
  lemma AllAckedDequeues(m: Mac)
    requires MacInv(m) && m.state == WaitingForAck && m.expected == []
    ensures var r := WaitingStep(m);
      var i := m.alias.value;
      && m.outgoing[i].receivers == []
      && r.outgoing == m.outgoing[..i] + m.outgoing[i + 1..]
      && |r.outgoing| == |m.outgoing| - 1
      && multiset(r.outgoing) == multiset(m.outgoing) - multiset{m.outgoing[i]}
      && r.ackWait == 0 && r.expected == []
      && (r.state == OutgoingMessagePending <==> r.outgoing != [])
      && (r.state == QueueIsEmpty <==> r.outgoing == [])
  {
    var i := m.alias.value;
    assert m.outgoing == m.outgoing[..i] + [m.outgoing[i]] + m.outgoing[i + 1..];
  }

  /** What incoming handling does with a packet meant for this node: an ACK
      goes to the holder, replacing any held one, and is not delivered;
      anything else is queued at the front of the incoming queue, and when
      it needs an ACK, the ACK to its sender goes to the end of the outgoing
      queue, so it is the next packet sent. Nothing else changes. */
  lemma IncomingSpec(m: Mac, me: string, heard: Heard)
    ensures var r := Incoming(m, me, heard);
      && (!(heard.Delivered? && IsForMe(me, heard.packet)) ==> r == m)
      && (heard.Delivered? && IsForMe(me, heard.packet) && IsAck(heard.packet) ==>
            r == m.(ackHolder := Some(heard.packet)))
      && (heard.Delivered? && IsForMe(me, heard.packet) && !IsAck(heard.packet) ==>
            && r.incoming == [heard.packet] + m.incoming
            && r.ackHolder == m.ackHolder
            && (RequiresAck(heard.packet) ==>
                  r.outgoing == m.outgoing + [MakeAck(me, heard.packet.sender)]
                  && Last(r.outgoing) == MakeAck(me, heard.packet.sender))
            && (!RequiresAck(heard.packet) ==> r.outgoing == m.outgoing)
            && r == m.(incoming := r.incoming, outgoing := r.outgoing))
  {
  }

  /** A node ignores its own broadcast unless it lists itself among the
      receivers, and takes a broadcast from another node, or any packet that
      lists it, as meant for it. */
  lemma BroadcastDelivery(m: Mac, me: string, p: Packet)
    requires p.mode == Broadcast && !IsAck(p)
    ensures p.sender == me && StrValue(me) !in p.receivers ==> Incoming(m, me, Delivered(p)) == m
    ensures p.sender != me || StrValue(me) in p.receivers ==>
      Incoming(m, me, Delivered(p)) == m.(incoming := [p] + m.incoming)
  {
  }

  /** Hearing a packet queues at most one ACK, and does so exactly for a
      packet meant for this node that is neither a broadcast nor an ACK. */
  lemma AckOnlyForAddressedData(m: Mac, me: string, p: Packet)
    ensures |Incoming(m, me, Delivered(p)).outgoing| ==
      |m.outgoing| + (if IsForMe(me, p) && p.mode != Broadcast && p.payload != AckPayload then 1 else 0)
  {
  }

  /** A packet waiting for ACKs is never dequeued by an update: the queue
      only grows, every entry keeps its place, and only the receivers of the
      waiting packet may shrink. Nothing is sent meanwhile. */
  lemma NoDequeueWhileUnacked(m: Mac, me: string, heard: Heard, trial: bool, draw: int)
    requires MacInv(m) && m.state == WaitingForAck && m.expected != []
    ensures var r := MacStep(m, me, heard, trial, draw);
      && r.1.None?
      && |r.0.outgoing| >= |m.outgoing|
      && (forall k :: 0 <= k < |m.outgoing| && k != m.alias.value ==> r.0.outgoing[k] == m.outgoing[k])
      && r.0.outgoing[m.alias.value] == m.outgoing[m.alias.value].(receivers := r.0.outgoing[m.alias.value].receivers)
  {
    IncomingKeepsInv(m, me, heard);
    var m1 := Incoming(m, me, heard);
    assert m1.alias == m.alias && m1.expected == m.expected;
    assert forall k :: 0 <= k < |m.outgoing| ==> m1.outgoing[k] == m.outgoing[k];
  }

  // ---------------------------------------------------------------- queue order

  /** The queue after `ps` are inserted at its front one after the other. */
  function Arrive(q: seq<Packet>, ps: seq<Packet>): seq<Packet>
    decreases |ps|
  {
    if ps == [] then q else [Last(ps)] + Arrive(q, ps[..|ps| - 1])
  }

  /** The packets a consumer gets by popping the end of `q` until it is
      empty, in the order it gets them. */
  function Drain(q: seq<Packet>): seq<Packet>
    decreases |q|
  {
    if q == [] then [] else [Last(q)] + Drain(q[..|q| - 1])
  }

  lemma {:induction false} DrainAppend(a: seq<Packet>, b: seq<Packet>)
    ensures Drain(a + b) == Drain(b) + Drain(a)
    decreases |b|
  {
    if b == [] {
      assert a + b == a;
    } else {
      assert (a + b)[..|a + b| - 1] == a + b[..|b| - 1];
      DrainAppend(a, b[..|b| - 1]);
    }
  }

  /** Queues that are filled at the front and emptied at the end hand out
      packets in arrival order, after everything queued before. */
  lemma {:induction false} FifoOrder(q: seq<Packet>, ps: seq<Packet>)
    ensures Drain(Arrive(q, ps)) == Drain(q) + ps
    decreases |ps|
  {
    if ps != [] {
      FifoOrder(q, ps[..|ps| - 1]);
      DrainAppend([Last(ps)], Arrive(q, ps[..|ps| - 1]));
      assert Drain([Last(ps)]) == [Last(ps)];
      assert ps == ps[..|ps| - 1] + [Last(ps)];
    }
  }

  /** `Received` hands out the first packet of `Drain`. */
  lemma ReceivedTakesOldest(m: Mac)
    requires m.incoming != []
    ensures Received(m).1 == Some(Drain(m.incoming)[0])
    ensures Drain(m.incoming) == [Received(m).1.value] + Drain(Received(m).0.incoming)
  {
  }

  /** Delivering a packet and queueing a message put it at the front, as
      `Arrive` does. */
  lemma QueueingIsArrival(m: Mac, me: string, p: Packet)
    ensures Sent(m, p).outgoing == Arrive(m.outgoing, [p])
    ensures IsForMe(me, p) && !IsAck(p) ==> Incoming(m, me, Delivered(p)).incoming == Arrive(m.incoming, [p])
  {
    assert [p][..0] == [];
  }

  /** An ACK queued with high priority is the next packet sent, and sending
      it leaves the queue as it was before. */
  lemma AckSentFirst(m: Mac, a: Packet, heard: Heard, trial: bool, draw: int)
    requires MacInv(m) && m.state == OutgoingMessagePending && IsAck(a)
    requires PendingStep(Prioritized(m, a), heard, trial, draw).1.Some?
    ensures PendingStep(Prioritized(m, a), heard, trial, draw).1 == Some(a)
    ensures PendingStep(Prioritized(m, a), heard, trial, draw).0.outgoing == m.outgoing
  {
    assert Prioritized(m, a).outgoing[..|m.outgoing|] == m.outgoing;
  }

  // ---------------------------------------------------------------- the finding

  /** Nothing is sent while waiting for ACKs, so no ACK queued for another
      node can be lost: every ACK in the queue is still there after the
      update. */
  lemma WaitingKeepsAcks(m: Mac, me: string, heard: Heard, trial: bool, draw: int)
    requires MacInv(m) && m.state == WaitingForAck
    ensures forall a :: a in m.outgoing && IsAck(a) ==> a in MacStep(m, me, heard, trial, draw).0.outgoing
  {
    IncomingKeepsInv(m, me, heard);
    var m1 := Incoming(m, me, heard);
    assert forall k :: 0 <= k < |m.outgoing| ==> m1.outgoing[k] == m.outgoing[k];
    var r := WaitingStep(m1);
    var i := m1.alias.value;
    forall a | a in m.outgoing && IsAck(a) ensures a in r.outgoing {
      var k :| 0 <= k < |m.outgoing| && m.outgoing[k] == a;
      if m1.expected != [] {
        if m1.ackWait != 0 {
          assert k != i;
          assert r.outgoing[k] == a;
        }
      } else {
        assert k != i;
        if k < i {
          assert r.outgoing[k] == a;
        } else {
          assert r.outgoing[k - 1] == a;
        }
      }
    }
  }

  /** The node that sends data to `a` in the scenario below. */
  const PeerData: Packet := Packet("c", [StrValue("a")], Unicast, "reading")

  /** Node "a" waits for the ACK of its packet to "b" when data from "c"
      arrives, so it queues an ACK to "c" behind that packet; then the ACK
      from "b" arrives; then the medium is clear. */
  const Waiting0: Mac := Mac(WaitingForAck, [], [Packet("a", [StrValue("b")], Unicast, "hello")], None, 0, 200, [StrValue("b")], Some(0))

  /** The scenario starts from a state a fresh node reaches: "a" queues its
      packet to "b", leaves QUEUE_IS_EMPTY, and sends it on a clear medium. */
  lemma ScenarioReachable()
    ensures var data := Packet("a", [StrValue("b")], Unicast, "hello");
      var m1 := MacStep(Sent(Initial, data), "a", Clear, false, 0).0;
      && MacStep(m1, "a", Clear, true, 0) == (Waiting0, Some(data))
      && MacInv(Waiting0)
  {
    var data := Packet("a", [StrValue("b")], Unicast, "hello");
    var m0 := Sent(Initial, data);
    assert m0 == Mac(QueueIsEmpty, [], [data], None, 0, 0, [], None);
    var m1 := MacStep(m0, "a", Clear, false, 0).0;
    assert m1 == m0.(state := OutgoingMessagePending);
    assert RequiresAck(data) && Last(m1.outgoing) == data;
    assert PendingStep(m1, Clear, true, 0) == (Waiting0, Some(data));
  }

  /** As written, the third update drops the ACK to "c", which was never
      sent, and keeps the packet "b" has acknowledged, which then goes out
      again. */
  lemma AsWrittenDropsUnsentAck()
    ensures var data := Packet("a", [StrValue("b")], Unicast, "hello");
      var ack := MakeAck("a", "c");
      var m1 := Incoming(Waiting0, "a", Delivered(PeerData));
      var w1 := AsWrittenWaitingStep(m1);
      var m2 := Incoming(w1, "a", Delivered(MakeAck("b", "a")));
      var w2 := AsWrittenWaitingStep(m2);
      var w3 := AsWrittenWaitingStep(Incoming(w2, "a", Clear));
      && m1.outgoing == [data, ack]
      && w2.outgoing == [data.(receivers := []), ack] && w2.state == WaitingForAck
      && w3.outgoing == [data.(receivers := [])] && w3.state == OutgoingMessagePending
      && PendingStep(w3, Clear, true, 0).1 == Some(data.(receivers := []))
  {
    var data := Packet("a", [StrValue("b")], Unicast, "hello");
    var ack := MakeAck("a", "c");
    assert IsForMe("a", PeerData) && RequiresAck(PeerData);
    var m1 := Incoming(Waiting0, "a", Delivered(PeerData));
    assert m1.outgoing == [data, ack];
    var w1 := AsWrittenWaitingStep(m1);
    assert w1 == m1.(ackWait := 199);
    var k := MakeAck("b", "a");
    assert IsForMe("a", k) && IsAck(k);
    var m2 := Incoming(w1, "a", Delivered(k));
    assert m2 == w1.(ackHolder := Some(k));
    assert RemoveFirst([StrValue("b")], StrValue("b")) == [];
    var w2 := AsWrittenWaitingStep(m2);
    assert w2.outgoing == [data.(receivers := []), ack];
  }

  /** The corrected step, on the same scenario, drops the acknowledged
      packet and keeps the ACK to "c", which is then the next packet sent. */
  lemma IntendedKeepsUnsentAck()
    ensures var ack := MakeAck("a", "c");
      var m1 := Incoming(Waiting0, "a", Delivered(PeerData));
      var w1 := WaitingStep(m1);
      var w2 := WaitingStep(Incoming(w1, "a", Delivered(MakeAck("b", "a"))));
      var w3 := WaitingStep(Incoming(w2, "a", Clear));
      && w3.outgoing == [ack] && w3.state == OutgoingMessagePending
      && PendingStep(w3, Clear, true, 0).1 == Some(ack)
  {
    var data := Packet("a", [StrValue("b")], Unicast, "hello");
    var ack := MakeAck("a", "c");
    assert IsForMe("a", PeerData) && RequiresAck(PeerData);
    var m1 := Incoming(Waiting0, "a", Delivered(PeerData));
    assert m1.outgoing == [data, ack];
    var w1 := WaitingStep(m1);
    var k := MakeAck("b", "a");
    assert IsForMe("a", k) && IsAck(k);
    var m2 := Incoming(w1, "a", Delivered(k));
    assert RemoveFirst([StrValue("b")], StrValue("b")) == [];
    var w2 := WaitingStep(m2);
    assert w2.outgoing == [data.(receivers := []), ack];
    assert w2.expected == [] && w2.alias == Some(0);
    var w3 := WaitingStep(Incoming(w2, "a", Clear));
    assert w3.outgoing == [data.(receivers := []), ack][..0] + [data.(receivers := []), ack][1..];
  }

  // ---------------------------------------------------------------- against the medium

  /** On a medium that keeps its invariant, listening never fails and an
      update of a node is `MacStep` on what it hears, followed by the
      propagation of the packet it sends. Only a propagation can fail, when
      the packet's sender is not registered exactly once; then the node is
      left as incoming handling made it. Both invariants are kept. */
  lemma NodeUpdateSpec(m: Mac, me: string, t: Tables, trial: bool, draw: int)
    requires MacInv(m) && Inv(t) && 0 <= draw <= ContentionWindow
    ensures Listen(t.signals, t.pairs, me).Ok?
    ensures var heard := Listen(t.signals, t.pairs, me).value;
      var r := NodeUpdate(m, me, t, trial, draw);
      && (MacStep(m, me, heard, trial, draw).1.None? ==>
            r == Stepped(MacStep(m, me, heard, trial, draw).0, t, Pass))
      && (MacStep(m, me, heard, trial, draw).1.Some? && Propagated(t, MacStep(m, me, heard, trial, draw).1.value).Ok? ==>
            r == Stepped(MacStep(m, me, heard, trial, draw).0, Propagated(t, MacStep(m, me, heard, trial, draw).1.value).value, Pass))
      && (MacStep(m, me, heard, trial, draw).1.Some? && Propagated(t, MacStep(m, me, heard, trial, draw).1.value).Err? ==>
            r == Stepped(Incoming(m, me, heard), t, Fail(NodeNotUnique(MacStep(m, me, heard, trial, draw).1.value.sender))))
      && MacInv(r.mac) && Inv(r.tables)
  {
    ListenNeverFails(t, me);
    var heard := Listen(t.signals, t.pairs, me).value;
    IncomingKeepsInv(m, me, heard);
    MacStepKeepsInv(m, me, heard, trial, draw);
    var s := MacStep(m, me, heard, trial, draw);
    if s.1.Some? && Propagated(t, s.1.value).Ok? {
      PropagateKeepsInv(t, s.1.value);
    }
  }

  /** Without incoming handling: the state machine step against the medium
      keeps both invariants. */
  lemma OutgoingUpdateKeepsInv(m: Mac, me: string, t: Tables, trial: bool, draw: int)
    requires MacInv(m) && Inv(t) && 0 <= draw <= ContentionWindow
    ensures MacInv(OutgoingUpdate(m, me, t, trial, draw).mac)
    ensures Inv(OutgoingUpdate(m, me, t, trial, draw).tables)
  {
    var r := OutgoingUpdate(m, me, t, trial, draw);
    match m.state
    case QueueIsEmpty =>
    case OutgoingMessagePending =>
      if m.backoff == 0 && Listen(t.signals, t.pairs, me).Ok? {
        var heard := Listen(t.signals, t.pairs, me).value;
        PendingKeepsInv(m, heard, trial, draw);
        var s := OutgoingStep(m, heard, trial, draw);
        if s.1.Some? && Propagated(t, s.1.value).Ok? {
          PropagateKeepsInv(t, s.1.value);
        }
      } else {
        PendingKeepsInv(m, Clear, trial, draw);
      }
    case WaitingForAck => WaitingKeepsInv(m);
  }
}
