/** The three tables of the shared wireless medium (nodes, signals and
    signal/node pairs) as values, the lookups the medium performs on them,
    and the passes of one medium tick as functions of the tables. The class
    in module WirelessMedium updates its fields exactly as these functions
    say; the lemmas about the passes live in module MediumLemmas. */
module MediumTables {
  import opened Packets

  type NodeId = string

  /** A registered node: its id, grid position and detection radius. */
  datatype NodeRecord = NodeRecord(id: NodeId, x: int, y: int, radius: int)

  /** A propagating signal. The sender's position and radius are captured
      when the signal is created; `time` counts down once per tick. */
  datatype Signal = Signal(id: nat, nodeId: NodeId, sourceX: int, sourceY: int, radius: int, time: int, packet: Packet)

  /** A node that is in range of a signal, and whether that node has ever
      had more than one signal in range since the pair was recorded. */
  datatype Pair = Pair(signalId: nat, nodeId: NodeId, collision: bool, id: nat)

  /** The lookup exceptions of the medium. */
  datatype MediumError =
    | NodeNotUnique(nodeId: NodeId)
    | SignalNotUnique(signalId: nat)
    | PairNotUnique(signalId: nat, nodeId: NodeId)

  /** What a node hears when it listens: 'CLEAR', 'BUSY' or a packet. */
  datatype Heard = Clear | Busy | Delivered(packet: Packet)

  /** All state of a medium. */
  datatype Tables = Tables(nodes: seq<NodeRecord>, signals: seq<Signal>, pairs: seq<Pair>,
                           signalIdCounter: nat, pairIdCounter: nat)

  /** The countdown a new signal starts with: three ticks of propagation,
      plus the tick that decrements it right after it is sent. */
  const SignalLifetime: int := 4

  // ---------------------------------------------------------------- lookups

  /** The nodes whose id is `id`, in table order. */
  function NodesWithId(nodes: seq<NodeRecord>, id: NodeId): (r: seq<NodeRecord>)
    ensures forall n :: n in r <==> n in nodes && n.id == id
    ensures |r| <= |nodes|
  {
    if nodes == [] then []
    else (if nodes[0].id == id then [nodes[0]] else []) + NodesWithId(nodes[1..], id)
  }

  /** The node record with id `id`, when exactly one record has it. */
  function GetNodeById(nodes: seq<NodeRecord>, id: NodeId): (r: Result<NodeRecord, MediumError>)
    ensures r.Ok? <==> |NodesWithId(nodes, id)| == 1
    ensures r.Ok? ==> r.value in nodes && r.value.id == id
    ensures r.Ok? ==> forall n :: n in nodes && n.id == id ==> n == r.value
    ensures r.Err? ==> r.error == NodeNotUnique(id)
  {
    var matches := NodesWithId(nodes, id);
    if |matches| == 1 then Ok(matches[0]) else Err(NodeNotUnique(id))
  }

  /** The signals whose id is `id`, in table order. */
  function SignalsWithId(signals: seq<Signal>, id: nat): (r: seq<Signal>)
    ensures forall s :: s in r <==> s in signals && s.id == id
    ensures |r| <= |signals|
  {
    if signals == [] then []
    else (if signals[0].id == id then [signals[0]] else []) + SignalsWithId(signals[1..], id)
  }

  /** The signal with id `id`, when exactly one signal has it. */
  function GetSignalById(signals: seq<Signal>, id: nat): (r: Result<Signal, MediumError>)
    ensures r.Ok? <==> |SignalsWithId(signals, id)| == 1
    ensures r.Ok? ==> r.value in signals && r.value.id == id
    ensures r.Ok? ==> forall s :: s in signals && s.id == id ==> s == r.value
    ensures r.Err? ==> r.error == SignalNotUnique(id)
  {
    var matches := SignalsWithId(signals, id);
    if |matches| == 1 then Ok(matches[0]) else Err(SignalNotUnique(id))
  }

  /** Two pairs name the same signal and the same node. */
  predicate SameKey(a: Pair, b: Pair) {
    a.signalId == b.signalId && a.nodeId == b.nodeId
  }

  /** The pairs that name signal `signalId` and node `nodeId`. */
  function PairsWith(pairs: seq<Pair>, signalId: nat, nodeId: NodeId): (r: seq<Pair>)
    ensures forall p :: p in r <==> p in pairs && p.signalId == signalId && p.nodeId == nodeId
    ensures |r| <= |pairs|
  {
    if pairs == [] then []
    else (if pairs[0].signalId == signalId && pairs[0].nodeId == nodeId then [pairs[0]] else [])
         + PairsWith(pairs[1..], signalId, nodeId)
  }

  /** The pair for a signal and a node: none when there is no such pair, an
      error when there are several. */
  function GetPairByBothIds(pairs: seq<Pair>, signalId: nat, nodeId: NodeId): (r: Result<Option<Pair>, MediumError>)
    ensures r.Err? <==> |PairsWith(pairs, signalId, nodeId)| > 1
    ensures r == Ok(None) <==> forall p :: p in pairs ==> !(p.signalId == signalId && p.nodeId == nodeId)
    ensures r.Ok? && r.value.Some? ==>
      r.value.value in pairs && r.value.value.signalId == signalId && r.value.value.nodeId == nodeId
    ensures r.Err? ==> r.error == PairNotUnique(signalId, nodeId)
  {
    var matches := PairsWith(pairs, signalId, nodeId);
    if |matches| > 1 then
      assert matches[0] in matches;
      Err(PairNotUnique(signalId, nodeId))
    else if |matches| == 1 then
      assert matches[0] in matches;
      Ok(Some(matches[0]))
    else
      assert forall p :: p in pairs && p.signalId == signalId && p.nodeId == nodeId ==> p in matches;
      Ok(None)
  }

  /** The pairs of node `nodeId`, in table order. */
  function PairsOfNode(pairs: seq<Pair>, nodeId: NodeId): (r: seq<Pair>)
    ensures forall p :: p in r <==> p in pairs && p.nodeId == nodeId
    ensures |r| <= |pairs|
  {
    if pairs == [] then []
    else (if pairs[0].nodeId == nodeId then [pairs[0]] else []) + PairsOfNode(pairs[1..], nodeId)
  }

  /** The table without the pairs of signal `signalId`. */
  function PairsWithoutSignal(pairs: seq<Pair>, signalId: nat): (r: seq<Pair>)
    ensures forall p :: p in r <==> p in pairs && p.signalId != signalId
    ensures |r| <= |pairs|
  {
    if pairs == [] then []
    else (if pairs[0].signalId != signalId then [pairs[0]] else []) + PairsWithoutSignal(pairs[1..], signalId)
  }

  /** A signal reaches a node when the squared distance from the signal's
      captured origin to the node is at most the signal's radius squared. */
  predicate InRange(s: Signal, n: NodeRecord) {
    (s.sourceX - n.x) * (s.sourceX - n.x) + (s.sourceY - n.y) * (s.sourceY - n.y) <= s.radius * s.radius
  }

  // ---------------------------------------------------------------- listen

  /** What node `nodeId` hears: CLEAR with no pair, the packet when it has a
      single clean pair whose signal is in its last tick, BUSY otherwise. A
      single clean pair whose signal id is not unique is the source's
      lookup exception. */
  function Listen(signals: seq<Signal>, pairs: seq<Pair>, nodeId: NodeId): (r: Result<Heard, MediumError>)
    ensures r == Ok(Clear) <==> forall p :: p in pairs ==> p.nodeId != nodeId
    ensures r.Ok? && r.value.Delivered? <==>
      exists p, s :: PairsOfNode(pairs, nodeId) == [p] && !p.collision
                     && SignalsWithId(signals, p.signalId) == [s] && s.time == 1
    ensures r.Ok? && r.value.Delivered? ==>
      exists p, s :: PairsOfNode(pairs, nodeId) == [p] && SignalsWithId(signals, p.signalId) == [s]
                     && r.value.packet == s.packet
    ensures r.Err? <==>
      exists p :: PairsOfNode(pairs, nodeId) == [p] && !p.collision && |SignalsWithId(signals, p.signalId)| != 1
  {
    var mine := PairsOfNode(pairs, nodeId);
    if mine == [] then
      assert forall p :: p in pairs && p.nodeId == nodeId ==> p in mine;
      Ok(Clear)
    else if |mine| > 1 || mine[0].collision then
      assert mine[0] in pairs;
      Ok(Busy)
    else
      assert mine == [mine[0]];
      match GetSignalById(signals, mine[0].signalId)
      case Err(e) => Err(e)
      case Ok(s) =>
        var found := SignalsWithId(signals, mine[0].signalId);
        assert found == [found[0]] && found[0] == s;
        if s.time == 1 then Ok(Delivered(s.packet)) else Ok(Busy)
  }

  // ---------------------------------------------------------------- invariant

  /** No two pairs name the same signal and the same node. */
  ghost predicate DistinctKeys(pairs: seq<Pair>) {
    forall i, j :: 0 <= i < j < |pairs| ==> !SameKey(pairs[i], pairs[j])
  }

  /** Signal ids strictly increase along the signal table. */
  ghost predicate IdsIncreasing(signals: seq<Signal>) {
    forall i, j :: 0 <= i < j < |signals| ==> signals[i].id < signals[j].id
  }

  /** What holds of the tables between any two operations of the medium:
      signal ids are increasing and below the counter, every countdown is
      within 1..4, at most one pair per signal and node, and every pair
      names a live signal. */
  ghost predicate Inv(t: Tables) {
    && IdsIncreasing(t.signals)
    && (forall s :: s in t.signals ==> s.id < t.signalIdCounter && 1 <= s.time <= SignalLifetime)
    && DistinctKeys(t.pairs)
    && (forall p :: p in t.pairs ==> SignalsWithId(t.signals, p.signalId) != [])
  }

  // ---------------------------------------------------------------- propagate

  /** The signal a registered node sends: its position and radius as they are
      now, a full countdown and the next signal id. */
  function NewSignal(sender: NodeRecord, id: nat, p: Packet): Signal {
    Signal(id, sender.id, sender.x, sender.y, sender.radius, SignalLifetime, p)
  }

  /** Sending a packet: the sender is looked up by the packet's sender id and
      must be registered exactly once. */
  function Propagated(t: Tables, p: Packet): (r: Result<Tables, MediumError>)
    ensures r.Ok? <==> |NodesWithId(t.nodes, p.sender)| == 1
    ensures r.Err? ==> r.error == NodeNotUnique(p.sender)
    ensures r.Ok? ==>
      exists n :: n in t.nodes && n.id == p.sender
        && r.value == t.(signals := t.signals + [NewSignal(n, t.signalIdCounter, p)],
                         signalIdCounter := t.signalIdCounter + 1)
  {
    match GetNodeById(t.nodes, p.sender)
    case Err(e) => Err(e)
    case Ok(n) =>
      Ok(t.(signals := t.signals + [NewSignal(n, t.signalIdCounter, p)],
            signalIdCounter := t.signalIdCounter + 1))
  }

  // ---------------------------------------------------------------- pass 1: visibility pairs

  /** `q` is a fresh, clean pair of some signal of `signals` and some node of
      `nodes` that is in range of it. */
  ghost predicate Created(signals: seq<Signal>, nodes: seq<NodeRecord>, q: Pair) {
    && !q.collision
    && exists s, n :: s in signals && n in nodes && s.id == q.signalId && n.id == q.nodeId && InRange(s, n)
  }

  /** Some pair names signal `s` and node `n`. */
  ghost predicate Recorded(pairs: seq<Pair>, s: Signal, n: NodeRecord) {
    exists q :: q in pairs && q.signalId == s.id && q.nodeId == n.id
  }

  /** The inner loop over the nodes for one signal: every node in range that
      has no pair with the signal yet gets one, with the next pair id. */
  function AddPairsForSignal(s: Signal, nodes: seq<NodeRecord>, pairs: seq<Pair>, counter: nat): (seq<Pair>, nat)
    decreases |nodes|
  {
    if nodes == [] then (pairs, counter)
    else
      var n := nodes[0];
      if InRange(s, n) && GetPairByBothIds(pairs, s.id, n.id) == Ok(None) then
        AddPairsForSignal(s, nodes[1..], pairs + [Pair(s.id, n.id, false, counter)], counter + 1)
      else
        AddPairsForSignal(s, nodes[1..], pairs, counter)
  }

  /** What the inner loop does: the table grows at its end only, by clean
      pairs with consecutive ids that join `s` to nodes in range of it, until
      every such node has a pair; keys stay distinct. */
  lemma AddPairsForSignalSpec(s: Signal, nodes: seq<NodeRecord>, pairs: seq<Pair>, counter: nat)
    ensures |AddPairsForSignal(s, nodes, pairs, counter).0| >= |pairs| && AddPairsForSignal(s, nodes, pairs, counter).0[..|pairs|] == pairs
    ensures AddPairsForSignal(s, nodes, pairs, counter).1 == counter + (|AddPairsForSignal(s, nodes, pairs, counter).0| - |pairs|)
    ensures forall i :: |pairs| <= i < |AddPairsForSignal(s, nodes, pairs, counter).0| ==> AddPairsForSignal(s, nodes, pairs, counter).0[i].id == counter + (i - |pairs|)
    ensures forall i :: |pairs| <= i < |AddPairsForSignal(s, nodes, pairs, counter).0| ==> CreatedFor(s, nodes, AddPairsForSignal(s, nodes, pairs, counter).0[i])
    ensures forall n :: n in nodes && InRange(s, n) ==> Recorded(AddPairsForSignal(s, nodes, pairs, counter).0, s, n)
    ensures forall x, n :: Recorded(pairs, x, n) ==> Recorded(AddPairsForSignal(s, nodes, pairs, counter).0, x, n)
    ensures DistinctKeys(pairs) ==> DistinctKeys(AddPairsForSignal(s, nodes, pairs, counter).0)
  {
    AddPairsForSignalShape(s, nodes, pairs, counter);
    AddPairsForSignalCreated(s, nodes, pairs, counter);
    AddPairsForSignalRecords(s, nodes, pairs, counter);
    if DistinctKeys(pairs) {
      AddPairsForSignalDistinct(s, nodes, pairs, counter);
    }
  }

  lemma {:induction false} AddPairsForSignalShape(s: Signal, nodes: seq<NodeRecord>, pairs: seq<Pair>, counter: nat)
    ensures |AddPairsForSignal(s, nodes, pairs, counter).0| >= |pairs| && AddPairsForSignal(s, nodes, pairs, counter).0[..|pairs|] == pairs
    ensures AddPairsForSignal(s, nodes, pairs, counter).1 == counter + (|AddPairsForSignal(s, nodes, pairs, counter).0| - |pairs|)
    ensures forall i :: |pairs| <= i < |AddPairsForSignal(s, nodes, pairs, counter).0| ==> AddPairsForSignal(s, nodes, pairs, counter).0[i].id == counter + (i - |pairs|)
    decreases |nodes|
  {
    if nodes != [] {
      var n := nodes[0];
      if InRange(s, n) && GetPairByBothIds(pairs, s.id, n.id) == Ok(None) {
        var q := Pair(s.id, n.id, false, counter);
        AddPairsForSignalShape(s, nodes[1..], pairs + [q], counter + 1);
        var r := AddPairsForSignal(s, nodes[1..], pairs + [q], counter + 1);
        assert r.0[..|pairs|] == pairs by {
          assert r.0[..|pairs + [q]|][..|pairs|] == r.0[..|pairs|];
        }
        assert r.0[|pairs|] == q by {
          assert r.0[..|pairs + [q]|][|pairs|] == q;
        }
      } else {
        AddPairsForSignalShape(s, nodes[1..], pairs, counter);
      }
    }
  }

  /** `q` is a fresh, clean pair of signal `s` and a node of `nodes` in
      range of it. */
  ghost predicate CreatedFor(s: Signal, nodes: seq<NodeRecord>, q: Pair) {
    && !q.collision && q.signalId == s.id
    && exists n :: n in nodes && n.id == q.nodeId && InRange(s, n)
  }

  lemma {:induction false} AddPairsForSignalCreated(s: Signal, nodes: seq<NodeRecord>, pairs: seq<Pair>, counter: nat)
    ensures forall i :: |pairs| <= i < |AddPairsForSignal(s, nodes, pairs, counter).0| ==> CreatedFor(s, nodes, AddPairsForSignal(s, nodes, pairs, counter).0[i])
    decreases |nodes|
  {
    if nodes != [] {
      var n := nodes[0];
      if InRange(s, n) && GetPairByBothIds(pairs, s.id, n.id) == Ok(None) {
        var q := Pair(s.id, n.id, false, counter);
        AddPairsForSignalCreated(s, nodes[1..], pairs + [q], counter + 1);
        AddPairsForSignalShape(s, nodes[1..], pairs + [q], counter + 1);
        var r := AddPairsForSignal(s, nodes[1..], pairs + [q], counter + 1);
        assert r.0[|pairs|] == q by {
          assert r.0[..|pairs + [q]|][|pairs|] == q;
        }
        forall i | |pairs| <= i < |r.0| ensures CreatedFor(s, nodes, r.0[i]) {
          if i > |pairs| {
            assert CreatedFor(s, nodes[1..], r.0[i]);
            var m :| m in nodes[1..] && m.id == r.0[i].nodeId && InRange(s, m);
            assert m in nodes;
          } else {
            assert n in nodes;
          }
        }
      } else {
        AddPairsForSignalCreated(s, nodes[1..], pairs, counter);
        var r := AddPairsForSignal(s, nodes[1..], pairs, counter);
        forall i | |pairs| <= i < |r.0| ensures CreatedFor(s, nodes, r.0[i]) {
          assert CreatedFor(s, nodes[1..], r.0[i]);
          var m :| m in nodes[1..] && m.id == r.0[i].nodeId && InRange(s, m);
          assert m in nodes;
        }
      }
    }
  }

  lemma {:induction false} AddPairsForSignalRecords(s: Signal, nodes: seq<NodeRecord>, pairs: seq<Pair>, counter: nat)
    ensures forall n :: n in nodes && InRange(s, n) ==> Recorded(AddPairsForSignal(s, nodes, pairs, counter).0, s, n)
    ensures forall x, n :: Recorded(pairs, x, n) ==> Recorded(AddPairsForSignal(s, nodes, pairs, counter).0, x, n)
    decreases |nodes|
  {
    if nodes != [] {
      var n := nodes[0];
      if InRange(s, n) && GetPairByBothIds(pairs, s.id, n.id) == Ok(None) {
        var q := Pair(s.id, n.id, false, counter);
        AddPairsForSignalRecords(s, nodes[1..], pairs + [q], counter + 1);
        assert Recorded(pairs + [q], s, n) by {
          assert q in pairs + [q];
        }
        forall x, m | Recorded(pairs, x, m) ensures Recorded(pairs + [q], x, m) {
          var w :| w in pairs && w.signalId == x.id && w.nodeId == m.id;
          assert w in pairs + [q];
        }
      } else {
        AddPairsForSignalRecords(s, nodes[1..], pairs, counter);
        assert InRange(s, n) ==> Recorded(pairs, s, n) by {
          if InRange(s, n) {
            var w :| w in pairs && w.signalId == s.id && w.nodeId == n.id;
          }
        }
      }
    }
  }

  lemma {:induction false} AddPairsForSignalDistinct(s: Signal, nodes: seq<NodeRecord>, pairs: seq<Pair>, counter: nat)
    requires DistinctKeys(pairs)
    ensures DistinctKeys(AddPairsForSignal(s, nodes, pairs, counter).0)
    decreases |nodes|
  {
    if nodes != [] {
      var n := nodes[0];
      if InRange(s, n) && GetPairByBothIds(pairs, s.id, n.id) == Ok(None) {
        var q := Pair(s.id, n.id, false, counter);
        forall i, j | 0 <= i < j < |pairs + [q]| ensures !SameKey((pairs + [q])[i], (pairs + [q])[j]) {
          if j == |pairs| {
            assert pairs[i] in pairs;
          }
        }
        AddPairsForSignalDistinct(s, nodes[1..], pairs + [q], counter + 1);
      } else {
        AddPairsForSignalDistinct(s, nodes[1..], pairs, counter);
      }
    }
  }

  /** The outer loop over the signals. */
  function AddPairs(signals: seq<Signal>, nodes: seq<NodeRecord>, pairs: seq<Pair>, counter: nat): (seq<Pair>, nat)
    decreases |signals|
  {
    if signals == [] then (pairs, counter)
    else
      var mid := AddPairsForSignal(signals[0], nodes, pairs, counter);
      AddPairs(signals[1..], nodes, mid.0, mid.1)
  }

  /** What the outer loop does: as the inner loop, for every signal. */
  lemma {:induction false} AddPairsSpec(signals: seq<Signal>, nodes: seq<NodeRecord>, pairs: seq<Pair>, counter: nat)
    ensures |AddPairs(signals, nodes, pairs, counter).0| >= |pairs| && AddPairs(signals, nodes, pairs, counter).0[..|pairs|] == pairs
    ensures AddPairs(signals, nodes, pairs, counter).1 == counter + (|AddPairs(signals, nodes, pairs, counter).0| - |pairs|)
    ensures (forall i :: |pairs| <= i < |AddPairs(signals, nodes, pairs, counter).0| ==> AddPairs(signals, nodes, pairs, counter).0[i].id == counter + (i - |pairs|))
    ensures (forall i :: |pairs| <= i < |AddPairs(signals, nodes, pairs, counter).0| ==> Created(signals, nodes, AddPairs(signals, nodes, pairs, counter).0[i]))
    ensures (forall s, n :: s in signals && n in nodes && InRange(s, n) ==> Recorded(AddPairs(signals, nodes, pairs, counter).0, s, n))
    ensures (forall x, n :: Recorded(pairs, x, n) ==> Recorded(AddPairs(signals, nodes, pairs, counter).0, x, n))
    ensures (DistinctKeys(pairs) ==> DistinctKeys(AddPairs(signals, nodes, pairs, counter).0))
    decreases |signals|
  {
    if signals != [] {
      AddPairsForSignalSpec(signals[0], nodes, pairs, counter);
      var mid := AddPairsForSignal(signals[0], nodes, pairs, counter);
      AddPairsSpec(signals[1..], nodes, mid.0, mid.1);
      var r := AddPairs(signals[1..], nodes, mid.0, mid.1);
      assert r.0[..|pairs|] == pairs by {
        assert r.0[..|mid.0|][..|pairs|] == r.0[..|pairs|];
      }
      forall i | |pairs| <= i < |r.0| ensures Created(signals, nodes, r.0[i]) {
        if i < |mid.0| {
          assert r.0[i] == mid.0[i] by {
            assert r.0[..|mid.0|][i] == r.0[i];
          }
          var m :| m in nodes && m.id == r.0[i].nodeId && InRange(signals[0], m);
          assert signals[0] in signals;
        } else {
          assert |mid.0| <= i < |r.0|;
          assert Created(signals[1..], nodes, r.0[i]);
          var x, m :| x in signals[1..] && m in nodes && x.id == r.0[i].signalId && m.id == r.0[i].nodeId && InRange(x, m);
          assert x in signals;
        }
      }
      forall i | |pairs| <= i < |r.0| ensures r.0[i].id == counter + (i - |pairs|) {
        if i < |mid.0| {
          assert r.0[..|mid.0|][i] == r.0[i];
        }
      }
      forall s, n | s in signals && n in nodes && InRange(s, n) ensures Recorded(r.0, s, n) {
        if s != signals[0] {
          assert s in signals[1..];
        }
      }
    }
  }

  /** Pass 1 of a tick: record every in-range signal/node combination that
      has no pair yet. */
  function CreatePairs(t: Tables): Tables {
    var r := AddPairs(t.signals, t.nodes, t.pairs, t.pairIdCounter);
    t.(pairs := r.0, pairIdCounter := r.1)
  }

  // ---------------------------------------------------------------- pass 2: collisions

  /** The inner loop for one crowded node: each of its pairs is removed,
      marked as collided and appended again. */
  function MoveCollided(pairs: seq<Pair>, moving: seq<Pair>): seq<Pair>
    decreases |moving|
  {
    if moving == [] then pairs
    else MoveCollided(RemoveFirst(pairs, moving[0]) + [moving[0].(collision := true)], moving[1..])
  }

  /** One iteration of the outer loop: a node with more than one pair has
      all its pairs marked. */
  function MarkNode(pairs: seq<Pair>, nodeId: NodeId): seq<Pair> {
    var mine := PairsOfNode(pairs, nodeId);
    if |mine| > 1 then MoveCollided(pairs, mine) else pairs
  }

  /** The outer loop over the node table. */
  function MarkNodes(pairs: seq<Pair>, nodes: seq<NodeRecord>): seq<Pair>
    decreases |nodes|
  {
    if nodes == [] then pairs
    else MarkNodes(MarkNode(pairs, nodes[0].id), nodes[1..])
  }

  /** Pass 2 of a tick. */
  function RecordCollisions(t: Tables): Tables {
    t.(pairs := MarkNodes(t.pairs, t.nodes))
  }

  /** A registered node that sees more than one signal. */
  predicate Crowded(nodes: seq<NodeRecord>, pairs: seq<Pair>, nodeId: NodeId) {
    NodesWithId(nodes, nodeId) != [] && |PairsOfNode(pairs, nodeId)| > 1
  }

  /** A pair as pass 2 leaves it: its collision flag is set when its node is
      crowded, and kept otherwise. */
  function Marked(nodes: seq<NodeRecord>, pairs: seq<Pair>, p: Pair): Pair {
    p.(collision := p.collision || Crowded(nodes, pairs, p.nodeId))
  }

  // ---------------------------------------------------------------- pass 3: ageing

  /** The signal table after every countdown is lowered by one, keeping the
      signals whose countdown is still positive, in order. */
  function Aged(signals: seq<Signal>): seq<Signal>
    decreases |signals|
  {
    if signals == [] then []
    else
      var last := signals[|signals| - 1];
      Aged(signals[..|signals| - 1]) + (if last.time - 1 > 0 then [last.(time := last.time - 1)] else [])
  }

  /** Every signal with a countdown above 1 survives with its countdown one
      lower, and nothing else is in the aged table. */
  lemma {:induction false} AgedSpec(signals: seq<Signal>)
    ensures forall s :: s in signals && s.time > 1 ==> s.(time := s.time - 1) in Aged(signals)
    ensures forall s :: s in Aged(signals) ==> exists o :: o in signals && o.time > 1 && s == o.(time := o.time - 1)
    decreases |signals|
  {
    if signals != [] {
      var init := signals[..|signals| - 1];
      var last := signals[|signals| - 1];
      AgedSpec(init);
      assert signals == init + [last];
    }
  }

  /** The ids of the signals that this tick retires. */
  ghost function ExpiredIds(signals: seq<Signal>): set<nat> {
    set s | s in signals && s.time - 1 <= 0 :: s.id
  }

  /** The pair table after the pairs of every retired signal are deleted,
      one signal after the other in table order. */
  function DropExpired(pairs: seq<Pair>, signals: seq<Signal>): seq<Pair>
    decreases |signals|
  {
    if signals == [] then pairs
    else
      var last := signals[|signals| - 1];
      var rest := DropExpired(pairs, signals[..|signals| - 1]);
      if last.time - 1 > 0 then rest else PairsWithoutSignal(rest, last.id)
  }

  /** Exactly the pairs of retired signals are deleted. */
  lemma {:induction false} DropExpiredSpec(pairs: seq<Pair>, signals: seq<Signal>)
    ensures forall p :: p in DropExpired(pairs, signals) <==> p in pairs && p.signalId !in ExpiredIds(signals)
    decreases |signals|
  {
    if signals != [] {
      var init := signals[..|signals| - 1];
      var last := signals[|signals| - 1];
      DropExpiredSpec(pairs, init);
      assert signals == init + [last];
      assert ExpiredIds(signals) == ExpiredIds(init) + (if last.time - 1 <= 0 then {last.id} else {});
    }
  }

  /** Pass 3 of a tick. */
  function UpdatePropagationCounters(t: Tables): Tables {
    t.(signals := Aged(t.signals), pairs := DropExpired(t.pairs, t.signals))
  }

  /** One medium tick: the three passes in order. */
  function Tick(t: Tables): Tables {
    UpdatePropagationCounters(RecordCollisions(CreatePairs(t)))
  }
}
