/** The life of one signal on an otherwise quiet medium: a node in range of
    the sender hears BUSY for two ticks and the packet on the third, every
    other node hears nothing, and the fourth tick removes the signal and
    its pairs. */
module MediumTiming {
  import opened Packets
  import opened MediumTables
  import opened MediumLemmas

  /** Some node with id `nodeId` is within reach of signal `sig`. */
  ghost predicate Reaches(nodes: seq<NodeRecord>, sig: Signal, nodeId: NodeId) {
    exists n :: n in nodes && n.id == nodeId && InRange(sig, n)
  }

  /** The medium carries only `sig`, with countdown `k`, and every pair joins
      it cleanly to a node in its reach. */
  ghost predicate Single(t: Tables, sig: Signal, k: int) {
    && t.signals == [sig.(time := k)]
    && DistinctKeys(t.pairs)
    && (forall q :: q in t.pairs ==> Clean(t.nodes, sig, q))
  }

  /** Pair `q` joins `sig` without collision to a node in its reach. */
  ghost predicate Clean(nodes: seq<NodeRecord>, sig: Signal, q: Pair) {
    q.signalId == sig.id && !q.collision && Reaches(nodes, sig, q.nodeId)
  }

  /** Every node in reach of `sig` has a pair with it. */
  ghost predicate Covered(t: Tables, sig: Signal) {
    forall n :: n in t.nodes && InRange(sig, n) ==> Recorded(t.pairs, sig, n)
  }

  lemma CreatedClean(t: Tables, sig: Signal, k: int, q: Pair)
    requires t.signals == [sig.(time := k)] && Created(t.signals, t.nodes, q)
    ensures Clean(t.nodes, sig, q)
  {
    var s, n :| s in t.signals && n in t.nodes && s.id == q.signalId && n.id == q.nodeId && InRange(s, n);
    assert s == sig.(time := k);
  }

  lemma SingleCreate(t: Tables, sig: Signal, k: int)
    requires Single(t, sig, k)
    ensures Single(CreatePairs(t), sig, k) && Covered(CreatePairs(t), sig)
    ensures CreatePairs(t).nodes == t.nodes
  {
    CreatePairsSpec(t);
    var r := CreatePairs(t).pairs;
    forall i | 0 <= i < |r| ensures Clean(t.nodes, sig, r[i]) {
      if i < |t.pairs| {
        assert r[i] == t.pairs[i];
        assert t.pairs[i] in t.pairs;
      } else {
        CreatedClean(t, sig, k, r[i]);
      }
    }
    var x := sig.(time := k);
    assert x in t.signals;
    forall n | n in t.nodes && InRange(sig, n) ensures Recorded(r, sig, n) {
      assert InRange(x, n);
      var f := PairsWith(r, x.id, n.id);
      assert f[0] in f;
    }
  }

  /** With one signal and distinct keys, no node has two pairs. */
  lemma {:induction false} NoCrowding(pairs: seq<Pair>, sid: nat, nodeId: NodeId)
    requires DistinctKeys(pairs)
    requires forall q :: q in pairs ==> q.signalId == sid
    ensures |PairsOfNode(pairs, nodeId)| <= 1
  {
    if pairs != [] {
      DistinctTail(pairs);
      NoCrowding(pairs[1..], sid, nodeId);
      if pairs[0].nodeId == nodeId {
        assert pairs[0] in pairs;
        NoPairsOfNode(pairs[1..], nodeId);
      }
    }
  }

  lemma {:induction false} NoPairsOfNode(pairs: seq<Pair>, nodeId: NodeId)
    requires forall q :: q in pairs ==> q.nodeId != nodeId
    ensures PairsOfNode(pairs, nodeId) == []
  {
    if pairs != [] {
      assert pairs[0] in pairs;
      NoPairsOfNode(pairs[1..], nodeId);
    }
  }

  lemma SingleRecord(t: Tables, sig: Signal, k: int)
    requires Single(t, sig, k) && Covered(t, sig)
    ensures Single(RecordCollisions(t), sig, k) && Covered(RecordCollisions(t), sig)
    ensures RecordCollisions(t).nodes == t.nodes
  {
    RecordCollisionsSpec(t);
    var r := RecordCollisions(t).pairs;
    forall p | p in t.pairs ensures Marked(t.nodes, t.pairs, p) == p {
      NoCrowding(t.pairs, sig.id, p.nodeId);
    }
    forall n | n in t.nodes && InRange(sig, n) ensures Recorded(r, sig, n) {
      var q :| q in t.pairs && q.signalId == sig.id && q.nodeId == n.id;
      assert Marked(t.nodes, t.pairs, q) in r;
    }
  }

  lemma {:induction false} AllOfSignalDropped(pairs: seq<Pair>, sid: nat)
    requires forall q :: q in pairs ==> q.signalId == sid
    ensures PairsWithoutSignal(pairs, sid) == []
  {
    if pairs != [] {
      assert pairs[0] in pairs;
      AllOfSignalDropped(pairs[1..], sid);
    }
  }

  lemma SingleAge(t: Tables, sig: Signal, k: int)
    requires Single(t, sig, k) && Covered(t, sig)
    ensures var u := UpdatePropagationCounters(t);
      if k > 1 then Single(u, sig, k - 1) && Covered(u, sig) && u.nodes == t.nodes
      else u.signals == [] && u.pairs == []
  {
    var x := sig.(time := k);
    assert t.signals[..0] == [];
    assert Aged(t.signals) == (if k > 1 then [x.(time := k - 1)] else []);
    assert x.(time := k - 1) == sig.(time := k - 1);
    assert DropExpired(t.pairs, t.signals) == (if k > 1 then t.pairs else PairsWithoutSignal(t.pairs, sig.id));
    if k <= 1 {
      AllOfSignalDropped(t.pairs, sig.id);
    }
  }

  /** One tick of a medium that carries only `sig`. */
  lemma SingleTick(t: Tables, sig: Signal, k: int)
    requires Single(t, sig, k)
    ensures var u := Tick(t);
      if k > 1 then Single(u, sig, k - 1) && Covered(u, sig) && u.nodes == t.nodes
      else u.signals == [] && u.pairs == []
  {
    SingleCreate(t, sig, k);
    SingleRecord(CreatePairs(t), sig, k);
    SingleAge(RecordCollisions(CreatePairs(t)), sig, k);
  }

  /** What a node hears from a medium that carries only `sig`. */
  lemma SingleListen(t: Tables, sig: Signal, k: int, nodeId: NodeId)
    requires Single(t, sig, k) && Covered(t, sig)
    ensures Listen(t.signals, t.pairs, nodeId) ==
      Ok(if !Reaches(t.nodes, sig, nodeId) then Clear else if k == 1 then Delivered(sig.packet) else Busy)
  {
    if Reaches(t.nodes, sig, nodeId) {
      var q := SinglePairOf(t, sig, k, nodeId);
      assert SignalsWithId(t.signals, sig.id) == [sig.(time := k)];
    } else {
      forall p | p in t.pairs ensures p.nodeId != nodeId {
        assert Clean(t.nodes, sig, p);
      }
    }
  }

  /** A node in reach of `sig` has exactly one pair, and it is clean. */
  lemma SinglePairOf(t: Tables, sig: Signal, k: int, nodeId: NodeId) returns (q: Pair)
    requires Single(t, sig, k) && Covered(t, sig) && Reaches(t.nodes, sig, nodeId)
    ensures PairsOfNode(t.pairs, nodeId) == [q] && q.signalId == sig.id && !q.collision
  {
    var mine := PairsOfNode(t.pairs, nodeId);
    NoCrowding(t.pairs, sig.id, nodeId);
    var n :| n in t.nodes && n.id == nodeId && InRange(sig, n);
    assert Recorded(t.pairs, sig, n);
    q :| q in t.pairs && q.signalId == sig.id && q.nodeId == n.id;
    assert q in mine;
    assert Clean(t.nodes, sig, q);
    assert mine == [q];
  }

  /** The life of a packet sent on a medium with no signal in flight: a node
      in reach of the sender hears BUSY after the first and second ticks and
      receives the packet after the third; a node out of reach hears nothing;
      after the fourth tick the medium is empty again. */
  lemma PropagationTiming(t: Tables, p: Packet, nodeId: NodeId)
    requires Inv(t) && t.signals == []
    requires Propagated(t, p).Ok?
    ensures var t1 := Propagated(t, p).value;
      var t2 := Tick(t1);
      var t3 := Tick(t2);
      var t4 := Tick(t3);
      var t5 := Tick(t4);
      && |t1.signals| == 1 && t1.signals[0].packet == p && t1.signals[0].nodeId == p.sender
      && var reached := Reaches(t.nodes, t1.signals[0], nodeId);
      && Listen(t2.signals, t2.pairs, nodeId) == Ok(if reached then Busy else Clear)
      && Listen(t3.signals, t3.pairs, nodeId) == Ok(if reached then Busy else Clear)
      && Listen(t4.signals, t4.pairs, nodeId) == Ok(if reached then Delivered(p) else Clear)
      && Listen(t5.signals, t5.pairs, nodeId) == Ok(Clear)
      && t5.signals == [] && t5.pairs == []
  {
    var t1 := Propagated(t, p).value;
    var n :| n in t.nodes && n.id == p.sender
      && t1 == t.(signals := t.signals + [NewSignal(n, t.signalIdCounter, p)], signalIdCounter := t.signalIdCounter + 1);
    var sig := NewSignal(n, t.signalIdCounter, p);
    assert t1.signals == [sig.(time := 4)];
    assert Single(t1, sig, 4);
    SingleTick(t1, sig, 4);
    var t2 := Tick(t1);
    SingleListen(t2, sig, 3, nodeId);
    SingleTick(t2, sig, 3);
    var t3 := Tick(t2);
    SingleListen(t3, sig, 2, nodeId);
    SingleTick(t3, sig, 2);
    var t4 := Tick(t3);
    SingleListen(t4, sig, 1, nodeId);
    SingleTick(t4, sig, 1);
  }

  /** The range test is a closed disc about the signal's captured origin:
      a node on its rim is in range, and a larger radius keeps every node in
      range that was. */
  lemma {:induction false} InRangeDisc(s: Signal, n: NodeRecord, r: int)
    requires 0 <= s.radius <= r
    ensures n.x == s.sourceX + s.radius && n.y == s.sourceY ==> InRange(s, n)
    ensures InRange(s, n) ==> InRange(s.(radius := r), n)
  {
    assert s.radius * s.radius <= s.radius * r <= r * r;
  }

  /** The sender is in reach of its own signal. */
  lemma SenderReachesItself(t: Tables, p: Packet)
    requires Inv(t) && Propagated(t, p).Ok?
    ensures Reaches(t.nodes, Propagated(t, p).value.signals[|t.signals|], p.sender)
  {
    var n :| n in t.nodes && n.id == p.sender
      && Propagated(t, p).value == t.(signals := t.signals + [NewSignal(n, t.signalIdCounter, p)], signalIdCounter := t.signalIdCounter + 1);
    assert InRange(NewSignal(n, t.signalIdCounter, p), n);
  }
}
