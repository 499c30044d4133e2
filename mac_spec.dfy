/** The p-persistent CSMA layer of one node, as functions of a snapshot of
    its fields: message validation, the packet helpers, incoming handling
    and the steps of the three-state machine. The class in module Csma
    updates its fields exactly as these functions say.

    Python aliasing, reproduced: when a packet that needs ACKs is sent, the
    list of expected ACK senders IS the queued packet's receiver list, so
    removing an acknowledged sender also shrinks that packet's receivers.
    The snapshot keeps the index of that packet in `alias` and applies
    every removal to both. Incoming packets are deep copies and ACKs are
    built afresh, so they are plain values. */
module CsmaSpec {
  import opened Packets
  import opened MediumTables

  /** The contention window: a backoff draw lies in 0..ContentionWindow. */
  const ContentionWindow: int := 3

  /** How many steps to wait for outstanding ACKs before retransmitting. */
  const AckWait: int := 200

  // ---------------------------------------------------------------- messages

  /** A message dictionary as the application hands it over: `None` for a
      missing key, otherwise whatever value was stored under it. */
  datatype RawMessage = RawMessage(mode: Option<Dyn>, sender: Option<Dyn>, receiver: Option<Dyn>, payload: string)

  /** Why a message is refused, one constructor per raise, in check order.
      `ReceiverKeyMissing` is the lookup of the receiver key that happens
      before validation. */
  datatype SendError =
    | ReceiverKeyMissing
    | ModeMissing
    | SenderMissing
    | ReceiverMissing
    | InvalidMode
    | SenderNotString
    | ReceiversRequired
    | ReceiverNotList

  function ModeName(m: Mode): string {
    match m
    case Broadcast => "broadcast"
    case Multicast => "multicast"
    case Unicast => "unicast"
  }

  /** The mode a field value names, if it names one. */
  function ModeOf(d: Dyn): (r: Option<Mode>)
    ensures r.Some? <==> exists m :: d == StrValue(ModeName(m))
    ensures r.Some? ==> d == StrValue(ModeName(r.value))
  {
    if d == StrValue("broadcast") then assert d == StrValue(ModeName(Broadcast)); Some(Broadcast)
    else if d == StrValue("multicast") then assert d == StrValue(ModeName(Multicast)); Some(Multicast)
    else if d == StrValue("unicast") then assert d == StrValue(ModeName(Unicast)); Some(Unicast)
    else assert forall m :: d != StrValue(ModeName(m)); None
  }

  /** The message dictionary that carries exactly the fields of `p`. */
  function ToRaw(p: Packet): RawMessage {
    RawMessage(Some(StrValue(ModeName(p.mode))), Some(StrValue(p.sender)), Some(ListValue(p.receivers)), p.payload)
  }

  /** An acceptable message: every key present, a known mode, a string
      sender and a list of receivers. */
  predicate WellFormed(m: RawMessage) {
    && m.mode.Some? && ModeOf(m.mode.value).Some?
    && m.sender.Some? && m.sender.value.StrValue?
    && m.receiver.Some? && m.receiver.value.ListValue?
  }

  /** The checks of packet validation in their order; an accepted message
      becomes the packet with its fields. */
  function ValidatePacket(m: RawMessage): (r: Result<Packet, SendError>)
    ensures r.Ok? <==> WellFormed(m)
    ensures r.Ok? ==> ToRaw(r.value) == m
    ensures r == Err(ModeMissing) <==> m.mode.None?
    ensures r == Err(SenderMissing) <==> m.mode.Some? && m.sender.None?
    ensures r == Err(ReceiverMissing) <==> m.mode.Some? && m.sender.Some? && m.receiver.None?
    ensures r == Err(InvalidMode) <==>
      m.mode.Some? && m.sender.Some? && m.receiver.Some? && ModeOf(m.mode.value).None?
    ensures r == Err(SenderNotString) <==>
      m.mode.Some? && m.sender.Some? && m.receiver.Some? && ModeOf(m.mode.value).Some? && !m.sender.value.StrValue?
    ensures r == Err(ReceiversRequired) <==>
      m.mode.Some? && m.sender.Some? && m.receiver.Some? && ModeOf(m.mode.value).Some? && m.sender.value.StrValue?
      && ModeOf(m.mode.value) != Some(Broadcast) && m.receiver.value == NoneValue
    ensures r == Err(ReceiverNotList) <==>
      m.mode.Some? && m.sender.Some? && m.receiver.Some? && ModeOf(m.mode.value).Some? && m.sender.value.StrValue?
      && !(ModeOf(m.mode.value) != Some(Broadcast) && m.receiver.value == NoneValue)
      && !m.receiver.value.ListValue?
    ensures r.Err? ==> r.error != ReceiverKeyMissing
  {
    if m.mode.None? then Err(ModeMissing)
    else if m.sender.None? then Err(SenderMissing)
    else if m.receiver.None? then Err(ReceiverMissing)
    else if ModeOf(m.mode.value).None? then Err(InvalidMode)
    else if !m.sender.value.StrValue? then Err(SenderNotString)
    else if ModeOf(m.mode.value).value != Broadcast && m.receiver.value == NoneValue then Err(ReceiversRequired)
    else if !m.receiver.value.ListValue? then Err(ReceiverNotList)
    else Ok(Packet(m.sender.value.s, m.receiver.value.items, ModeOf(m.mode.value).value, m.payload))
  }

  /** Every packet passes validation as the message of its own fields. */
  lemma ValidateToRaw(p: Packet)
    ensures ValidatePacket(ToRaw(p)) == Ok(p)
  {
    assert ModeOf(StrValue(ModeName(p.mode))) == Some(p.mode);
  }

  /** The work-around for a single integer receiver: it becomes a
      one-element list. */
  function Wrapped(m: RawMessage): RawMessage
    requires m.receiver.Some?
  {
    if m.receiver.value.IntValue? then m.(receiver := Some(ListValue([m.receiver.value]))) else m
  }

  /** What sending a message makes of it: the packet that is queued, or the
      error raised. */
  function Submitted(m: RawMessage): (r: Result<Packet, SendError>)
    ensures m.receiver.None? ==> r == Err(ReceiverKeyMissing)
    ensures r.Ok? <==> m.receiver.Some? && WellFormed(Wrapped(m))
    ensures r.Ok? ==>
      r.value.sender == m.sender.value.s && r.value.payload == m.payload && Some(StrValue(ModeName(r.value.mode))) == m.mode
    ensures r.Ok? && m.receiver.value.IntValue? ==> r.value.receivers == [m.receiver.value]
    ensures r.Ok? && !m.receiver.value.IntValue? ==> m.receiver == Some(ListValue(r.value.receivers))
  {
    if m.receiver.None? then Err(ReceiverKeyMissing) else ValidatePacket(Wrapped(m))
  }

  /** A single integer receiver is accepted exactly as the one-element list
      holding it would be. */
  lemma IntReceiverAsList(m: RawMessage, i: int)
    ensures Submitted(m.(receiver := Some(IntValue(i)))) == Submitted(m.(receiver := Some(ListValue([IntValue(i)]))))
  {
  }

  // ---------------------------------------------------------------- packet helpers

  /** Whether a packet is meant for node `me`: a broadcast from another node,
      or a packet that lists `me` among its receivers. */
  predicate IsForMe(me: string, p: Packet) {
    (p.mode == Broadcast && p.sender != me) || StrValue(me) in p.receivers
  }

  /** Whether the sender of `p` waits for an ACK: not a broadcast and not an
      ACK itself. */
  predicate RequiresAck(p: Packet) {
    p.mode != Broadcast && !IsAck(p)
  }

  /** The ACK that node `me` sends to node `to`. */
  function MakeAck(me: string, to: string): (r: Packet)
    ensures IsAck(r) && !RequiresAck(r)
    ensures IsForMe(to, r) && r.sender == me
    ensures ValidatePacket(ToRaw(r)) == Ok(r)
  {
    var r := Packet(me, [StrValue(to)], Unicast, AckPayload);
    ValidateToRaw(r);
    r
  }

  // ---------------------------------------------------------------- the state machine

  datatype MacState = QueueIsEmpty | OutgoingMessagePending | WaitingForAck

  /** A snapshot of the fields of one MAC object. Both queues are consumed
      from their end. `alias` is the index in `outgoing` of the packet whose
      receiver list `expected` is. */
  datatype Mac = Mac(
    state: MacState,
    incoming: seq<Packet>,
    outgoing: seq<Packet>,
    ackHolder: Option<Packet>,
    backoff: int,
    ackWait: int,
    expected: seq<Dyn>,
    alias: Option<nat>)

  const Initial: Mac := Mac(QueueIsEmpty, [], [], None, 0, 0, [], None)

  /** What holds between any two operations: the counters are within their
      ranges, a non-empty state has something to send, expected ACKs only
      exist while waiting, there is an aliased packet exactly while
      waiting, and that packet is in the queue, is not an ACK and has the
      expected senders as its receivers. */
  ghost predicate MacInv(m: Mac) {
    && 0 <= m.backoff <= ContentionWindow
    && 0 <= m.ackWait <= AckWait
    && (m.state != QueueIsEmpty ==> m.outgoing != [])
    && (m.state == WaitingForAck <==> m.alias.Some?)
    && (m.expected != [] ==> m.state == WaitingForAck)
    && (m.alias.Some? ==>
          m.alias.value < |m.outgoing|
          && m.outgoing[m.alias.value].receivers == m.expected
          && !IsAck(m.outgoing[m.alias.value]))
  }

  lemma InitialInv()
    ensures MacInv(Initial)
  {
  }

  function Last<T>(s: seq<T>): T
    requires s != []
  {
    s[|s| - 1]
  }

  /** Queueing a message from the application: it goes to the front. */
  function Sent(m: Mac, p: Packet): (r: Mac)
    ensures r.outgoing == [p] + m.outgoing && Last(r.outgoing) == (if m.outgoing == [] then p else Last(m.outgoing))
  {
    m.(outgoing := [p] + m.outgoing, alias := if m.alias.Some? then Some(m.alias.value + 1) else None)
  }

  /** Queueing an ACK: it goes to the end, so it is the next to be sent. */
  function Prioritized(m: Mac, p: Packet): (r: Mac)
    ensures r.outgoing == m.outgoing + [p] && Last(r.outgoing) == p
  {
    m.(outgoing := m.outgoing + [p])
  }

  /** Handing the oldest received packet to the application. */
  function Received(m: Mac): (r: (Mac, Option<Packet>))
    ensures m.incoming == [] <==> r.1.None?
    ensures r.1.Some? ==> m.incoming == r.0.incoming + [r.1.value]
    ensures r.0 == m.(incoming := r.0.incoming)
  {
    if m.incoming == [] then (m, None)
    else (m.(incoming := m.incoming[..|m.incoming| - 1]), Some(Last(m.incoming)))
  }

  /** Incoming handling for what node `me` hears: a packet meant for it is
      held when it is an ACK, and otherwise queued at the front of the
      incoming queue, after an ACK to its sender is queued when one is
      required. */
  function Incoming(m: Mac, me: string, heard: Heard): Mac {
    if heard.Delivered? && IsForMe(me, heard.packet) then
      var p := heard.packet;
      if IsAck(p) then m.(ackHolder := Some(p))
      else
        var m1 := if RequiresAck(p) then Prioritized(m, MakeAck(me, p.sender)) else m;
        m1.(incoming := [p] + m1.incoming)
    else m
  }

  /** A successful trial in OUTGOING_MESSAGE_PENDING: the packet at the end
      of the queue is sent. One that needs ACKs stays queued while the
      machine waits for its receivers; any other is dequeued. */
  function Transmission(m: Mac): Mac
    requires m.outgoing != []
  {
    var p := Last(m.outgoing);
    if RequiresAck(p) then
      m.(expected := p.receivers, alias := Some(|m.outgoing| - 1), ackWait := AckWait, state := WaitingForAck)
    else
      var q := m.outgoing[..|m.outgoing| - 1];
      m.(outgoing := q, state := if q == [] then QueueIsEmpty else m.state)
  }

  /** The OUTGOING_MESSAGE_PENDING step, given what the node hears, the
      outcome of the random trial and the backoff draw. Also returns the
      packet handed to the medium, if any. */
  function PendingStep(m: Mac, heard: Heard, trial: bool, draw: int): (Mac, Option<Packet>)
    requires m.outgoing != []
  {
    if m.backoff == 0 then
      if heard == Clear then
        if trial then (Transmission(m), Some(Last(m.outgoing)))
        else (m, None)
      else (m.(backoff := draw), None)
    else (m.(backoff := m.backoff - 1), None)
  }

  /** An ACK from `sender` clears that sender from the expected list, which
      is also the receiver list of the aliased packet. */
  function Acknowledged(m: Mac, sender: Dyn): Mac
    requires sender in m.expected
  {
    var e := RemoveFirst(m.expected, sender);
    var q := if m.alias.Some? && m.alias.value < |m.outgoing|
      then m.outgoing[m.alias.value := m.outgoing[m.alias.value].(receivers := e)]
      else m.outgoing;
    m.(expected := e, ackHolder := None, outgoing := q)
  }

  /** The WAITING_FOR_ACK step while ACKs are outstanding: a held ACK from
      an expected sender is consumed and the counter goes down, or, once the
      counter is 0, the machine gives up waiting and goes back to
      OUTGOING_MESSAGE_PENDING without touching the queue. Rebinding the
      expected list ends the aliasing. */
  function Outstanding(m: Mac): Mac
    requires m.expected != []
  {
    if m.ackWait != 0 then
      var m1 := if m.ackHolder.Some? && StrValue(m.ackHolder.value.sender) in m.expected
        then Acknowledged(m, StrValue(m.ackHolder.value.sender)) else m;
      m1.(ackWait := m.ackWait - 1)
    else m.(expected := [], alias := None, state := OutgoingMessagePending)
  }

  /** Leaving WAITING_FOR_ACK with every ACK in: the packet at index `i` is
      dequeued, the counter reset, and the machine goes idle exactly when
      the queue is then empty. */
  function Dequeued(m: Mac, i: nat): Mac
    requires i < |m.outgoing|
  {
    var q := m.outgoing[..i] + m.outgoing[i + 1..];
    m.(ackWait := 0, outgoing := q, alias := None, state := if q != [] then OutgoingMessagePending else QueueIsEmpty)
  }

  /** The WAITING_FOR_ACK step. Once no ACK is outstanding, the packet that
      was acknowledged leaves the queue wherever it now stands. */
  function WaitingStep(m: Mac): Mac
    requires m.outgoing != []
  {
    if m.expected != [] then Outstanding(m)
    else if m.alias.Some? && m.alias.value < |m.outgoing| then Dequeued(m, m.alias.value)
    else Dequeued(m, |m.outgoing| - 1)
  }

  /** The WAITING_FOR_ACK step as the simulator has it: once no ACK is
      outstanding, the END of the outgoing queue is dropped, whatever packet
      is there. */
  function AsWrittenWaitingStep(m: Mac): Mac
    requires m.outgoing != []
  {
    if m.expected != [] then Outstanding(m) else Dequeued(m, |m.outgoing| - 1)
  }

  /** One step of the state machine. */
  function OutgoingStep(m: Mac, heard: Heard, trial: bool, draw: int): (Mac, Option<Packet>)
    requires m.state != QueueIsEmpty ==> m.outgoing != []
  {
    match m.state
    case QueueIsEmpty => (if m.outgoing != [] then m.(state := OutgoingMessagePending) else m, None)
    case OutgoingMessagePending => PendingStep(m, heard, trial, draw)
    case WaitingForAck => (WaitingStep(m), None)
  }

  /** One update of the MAC object: incoming handling, then one step of the
      state machine; both see what the node hears from the medium now. */
  function MacStep(m: Mac, me: string, heard: Heard, trial: bool, draw: int): (Mac, Option<Packet>)
    requires m.state != QueueIsEmpty ==> m.outgoing != []
  {
    OutgoingStep(Incoming(m, me, heard), heard, trial, draw)
  }

  /** One step of the state machine as the simulator has it: WAITING_FOR_ACK
      takes `AsWrittenWaitingStep`; the other states step as in
      `OutgoingStep`. */
  function AsWrittenOutgoingStep(m: Mac, heard: Heard, trial: bool, draw: int): (Mac, Option<Packet>)
    requires m.state != QueueIsEmpty ==> m.outgoing != []
  {
    match m.state
    case QueueIsEmpty => (if m.outgoing != [] then m.(state := OutgoingMessagePending) else m, None)
    case OutgoingMessagePending => PendingStep(m, heard, trial, draw)
    case WaitingForAck => (AsWrittenWaitingStep(m), None)
  }

  /** One update of the MAC object as the simulator has it. */
  function AsWrittenMacStep(m: Mac, me: string, heard: Heard, trial: bool, draw: int): (Mac, Option<Packet>)
    requires m.state != QueueIsEmpty ==> m.outgoing != []
  {
    AsWrittenOutgoingStep(Incoming(m, me, heard), heard, trial, draw)
  }

  // ---------------------------------------------------------------- against the medium

  /** What an update leaves behind: the MAC snapshot, the medium tables and
      whether an exception was raised. */
  datatype Stepped = Stepped(mac: Mac, tables: Tables, outcome: Outcome<MediumError>)

  /** Handing the packet `sent`, if any, to the medium after a step from `m`
      to `m1`. A failing propagation raises before the MAC fields change. */
  function Transmitted(m: Mac, m1: Mac, sent: Option<Packet>, t: Tables): Stepped {
    if sent.None? then Stepped(m1, t, Pass)
    else match Propagated(t, sent.value)
      case Err(e) => Stepped(m, t, Fail(e))
      case Ok(t1) => Stepped(m1, t1, Pass)
  }

  /** The state machine step of node `me` on medium tables `t`. The medium
      is listened to only in OUTGOING_MESSAGE_PENDING with the backoff run
      out; a failing lookup there raises before anything changes. */
  function OutgoingUpdate(m: Mac, me: string, t: Tables, trial: bool, draw: int): Stepped
    requires m.state != QueueIsEmpty ==> m.outgoing != []
  {
    if m.state == OutgoingMessagePending && m.backoff == 0 then
      match Listen(t.signals, t.pairs, me)
      case Err(e) => Stepped(m, t, Fail(e))
      case Ok(heard) => Transmitted(m, OutgoingStep(m, heard, trial, draw).0, OutgoingStep(m, heard, trial, draw).1, t)
    else Stepped(OutgoingStep(m, Clear, trial, draw).0, t, Pass)
  }

  /** One update of node `me`: listen and handle what is heard, then the
      state machine step. */
  function NodeUpdate(m: Mac, me: string, t: Tables, trial: bool, draw: int): Stepped
    requires m.state != QueueIsEmpty ==> m.outgoing != []
  {
    match Listen(t.signals, t.pairs, me)
    case Err(e) => Stepped(m, t, Fail(e))
    case Ok(heard) =>
      var m1 := Incoming(m, me, heard);
      assert m1.state == m.state && |m1.outgoing| >= |m.outgoing|;
      OutgoingUpdate(m1, me, t, trial, draw)
  }
}
