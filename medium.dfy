/** The medium object: its three tables and two id counters are fields that
    its methods update in place, loop for loop as the simulator does. Each
    method is proved to leave the fields as the corresponding function of
    module MediumTables says, and the class invariant `Valid` is kept by
    every operation. The lookups of the tables (by node id, signal id, both
    ids, node) and `Listen` change nothing and are the functions of
    MediumTables applied to `State()`. */
module WirelessMedium {
  import opened Packets
  import opened MediumTables
  import opened MediumLemmas

  class Medium {
    var nodes: seq<NodeRecord>
    var signals: seq<Signal>
    var pairs: seq<Pair>
    var signalIdCounter: nat
    var pairIdCounter: nat

    /** The fields as one value. */
    function State(): Tables
      reads this
    {
      Tables(nodes, signals, pairs, signalIdCounter, pairIdCounter)
    }

    ghost predicate Valid()
      reads this
    {
      Inv(State())
    }

    /** An empty medium: no node, no signal, no pair, both counters at 0. */
    constructor ()
      ensures State() == Tables([], [], [], 0, 0)
      ensures Valid()
    {
      nodes := [];
      signals := [];
      pairs := [];
      signalIdCounter := 0;
      pairIdCounter := 0;
    }

    /** Appends a record per node, in the order given. */
    method RegisterNodes(records: seq<NodeRecord>)
      requires Valid()
      modifies this
      ensures State() == old(State()).(nodes := old(nodes) + records)
      ensures Valid()
    {
      var i := 0;
      while i < |records|
        invariant 0 <= i <= |records|
        invariant nodes == old(nodes) + records[..i]
        invariant signals == old(signals) && pairs == old(pairs)
        invariant signalIdCounter == old(signalIdCounter) && pairIdCounter == old(pairIdCounter)
      {
        nodes := nodes + [records[i]];
        i := i + 1;
      }
      assert records[..i] == records;
    }

    /** Sends a packet: appends the sender's signal with the next signal id,
        or fails, changing nothing, when the sender is not registered
        exactly once. */
    method Propagate(p: Packet) returns (o: Outcome<MediumError>)
      requires Valid()
      modifies this
      ensures Propagated(old(State()), p).Ok? ==> o == Pass && State() == Propagated(old(State()), p).value
      ensures Propagated(old(State()), p).Err? ==>
        o == Fail(Propagated(old(State()), p).error) && State() == old(State())
      ensures Valid()
    {
      var sender := GetNodeById(nodes, p.sender);
      if sender.Err? {
        return Fail(sender.error);
      }
      PropagateKeepsInv(State(), p);
      signals := signals + [NewSignal(sender.value, signalIdCounter, p)];
      signalIdCounter := signalIdCounter + 1;
      o := Pass;
    }

    /** Pass 1: for every signal and every node in range of it that has no
        pair with it yet, appends a clean pair with the next pair id. */
    method CreateSignalNodePairs()
      modifies this
      ensures State() == CreatePairs(old(State()))
    {
      var i := 0;
      while i < |signals|
        invariant 0 <= i <= |signals|
        invariant State() == old(State()).(pairs := pairs, pairIdCounter := pairIdCounter)
        invariant AddPairs(signals[i..], nodes, pairs, pairIdCounter) == AddPairs(signals, nodes, old(pairs), old(pairIdCounter))
      {
        PairSignal(signals[i]);
        assert signals[i..][1..] == signals[i + 1..];
        i := i + 1;
      }
    }

    /** The inner loop of pass 1 for one signal. */
    method PairSignal(s: Signal)
      modifies this
      ensures State() == old(State()).(pairs := AddPairsForSignal(s, nodes, old(pairs), old(pairIdCounter)).0,
                                       pairIdCounter := AddPairsForSignal(s, nodes, old(pairs), old(pairIdCounter)).1)
    {
      var j := 0;
      while j < |nodes|
        invariant 0 <= j <= |nodes|
        invariant State() == old(State()).(pairs := pairs, pairIdCounter := pairIdCounter)
        invariant AddPairsForSignal(s, nodes[j..], pairs, pairIdCounter) == AddPairsForSignal(s, nodes, old(pairs), old(pairIdCounter))
      {
        var n := nodes[j];
        if InRange(s, n) {
          var found := GetPairByBothIds(pairs, s.id, n.id);
          if found == Ok(None) {
            pairs := pairs + [Pair(s.id, n.id, false, pairIdCounter)];
            pairIdCounter := pairIdCounter + 1;
          }
        }
        assert nodes[j..][1..] == nodes[j + 1..];
        j := j + 1;
      }
    }

    /** Pass 2: every pair of a node that has more than one pair is removed,
        marked as collided and appended again. */
    method RecordCollisions()
      modifies this
      ensures State() == MediumTables.RecordCollisions(old(State()))
    {
      var i := 0;
      while i < |nodes|
        invariant 0 <= i <= |nodes|
        invariant State() == old(State()).(pairs := pairs)
        invariant MarkNodes(pairs, nodes[i..]) == MarkNodes(old(pairs), nodes)
      {
        var mine := PairsOfNode(pairs, nodes[i].id);
        if mine != [] && |mine| > 1 {
          MarkCollided(mine);
        }
        assert nodes[i..][1..] == nodes[i + 1..];
        i := i + 1;
      }
    }

    /** The inner loop of pass 2 for one crowded node. */
    method MarkCollided(mine: seq<Pair>)
      modifies this
      ensures State() == old(State()).(pairs := MoveCollided(old(pairs), mine))
    {
      var j := 0;
      while j < |mine|
        invariant 0 <= j <= |mine|
        invariant State() == old(State()).(pairs := pairs)
        invariant MoveCollided(pairs, mine[j..]) == MoveCollided(old(pairs), mine)
      {
        var pair := mine[j];
        pairs := RemoveFirst(pairs, pair);
        pair := pair.(collision := true);
        pairs := pairs + [pair];
        assert mine[j..][1..] == mine[j + 1..];
        j := j + 1;
      }
    }

    /** Drops every pair of signal `signalId`, keeping the others in order. */
    method DeleteSignalNodePairsBySignalId(signalId: nat)
      modifies this
      ensures State() == old(State()).(pairs := PairsWithoutSignal(old(pairs), signalId))
      ensures forall p :: p in pairs <==> p in old(pairs) && p.signalId != signalId
    {
      pairs := PairsWithoutSignal(pairs, signalId);
    }

    /** Pass 3: lowers every countdown by one in place; a signal whose
        countdown is still positive is kept, the pairs of any other are
        deleted, and the kept signals become the signal table. */
    method UpdatePropagationCounters()
      modifies this
      ensures State() == MediumTables.UpdatePropagationCounters(old(State()))
    {
      var updated := [];
      var i := 0;
      while i < |signals|
        invariant 0 <= i <= |signals| == |old(signals)|
        invariant nodes == old(nodes) && signalIdCounter == old(signalIdCounter) && pairIdCounter == old(pairIdCounter)
        invariant forall k :: 0 <= k < i ==> signals[k] == old(signals)[k].(time := old(signals)[k].time - 1)
        invariant forall k :: i <= k < |signals| ==> signals[k] == old(signals)[k]
        invariant updated == Aged(old(signals)[..i])
        invariant pairs == DropExpired(old(pairs), old(signals)[..i])
      {
        signals := signals[i := signals[i].(time := signals[i].time - 1)];
        var s := signals[i];
        assert old(signals)[..i + 1][..i] == old(signals)[..i];
        if s.time > 0 {
          updated := updated + [s];
        } else {
          DeleteSignalNodePairsBySignalId(s.id);
        }
        i := i + 1;
      }
      assert old(signals)[..i] == old(signals);
      signals := updated;
    }

    /** One time step: the three passes in order. */
    method Update()
      requires Valid()
      modifies this
      ensures State() == Tick(old(State()))
      ensures Valid()
    {
      TickKeepsInv(State());
      CreateSignalNodePairs();
      RecordCollisions();
      UpdatePropagationCounters();
    }
  }
}
