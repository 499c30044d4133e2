/** Properties of the medium's tick passes and of listening, proved about
    the table functions of module MediumTables. */
module MediumLemmas {
  import opened Packets
  import opened MediumTables

  // ---------------------------------------------------------------- distinct keys

  lemma DistinctTail(s: seq<Pair>)
    requires DistinctKeys(s) && s != []
    ensures DistinctKeys(s[1..])
    ensures forall q :: q in s[1..] ==> !SameKey(s[0], q)
  {
    forall q | q in s[1..] ensures !SameKey(s[0], q) {
      var k :| 0 <= k < |s[1..]| && s[1..][k] == q;
      assert s[k + 1] == q;
    }
  }

  lemma DistinctCons(a: Pair, t: seq<Pair>)
    requires DistinctKeys(t)
    requires forall q :: q in t ==> !SameKey(a, q)
    ensures DistinctKeys([a] + t)
  {
    forall i, j | 0 <= i < j < |[a] + t| ensures !SameKey(([a] + t)[i], ([a] + t)[j]) {
      assert ([a] + t)[j] == t[j - 1];
      if i == 0 {
        assert t[j - 1] in t;
      } else {
        assert ([a] + t)[i] == t[i - 1];
      }
    }
  }

  lemma DistinctSnoc(s: seq<Pair>, y: Pair)
    requires DistinctKeys(s)
    requires forall q :: q in s ==> !SameKey(q, y)
    ensures DistinctKeys(s + [y])
  {
    forall i, j | 0 <= i < j < |s + [y]| ensures !SameKey((s + [y])[i], (s + [y])[j]) {
      if j == |s| {
        assert s[i] in s;
      }
    }
  }

  /** With distinct keys the pair lookup never finds two pairs. */
  lemma {:induction false} DistinctAtMostOne(ps: seq<Pair>, signalId: nat, nodeId: NodeId)
    requires DistinctKeys(ps)
    ensures |PairsWith(ps, signalId, nodeId)| <= 1
    ensures GetPairByBothIds(ps, signalId, nodeId).Ok?
  {
    if ps != [] {
      DistinctTail(ps);
      DistinctAtMostOne(ps[1..], signalId, nodeId);
    }
  }

  /** With distinct keys the lookup of a pair of the table finds exactly that pair. */
  lemma DistinctFindsOne(ps: seq<Pair>, p: Pair)
    requires DistinctKeys(ps) && p in ps
    ensures PairsWith(ps, p.signalId, p.nodeId) == [p]
  {
    DistinctAtMostOne(ps, p.signalId, p.nodeId);
    assert p in PairsWith(ps, p.signalId, p.nodeId);
  }

  lemma {:induction false} PairsOfNodeDistinct(s: seq<Pair>, nodeId: NodeId)
    requires DistinctKeys(s)
    ensures DistinctKeys(PairsOfNode(s, nodeId))
  {
    if s != [] {
      DistinctTail(s);
      PairsOfNodeDistinct(s[1..], nodeId);
      if s[0].nodeId == nodeId {
        DistinctCons(s[0], PairsOfNode(s[1..], nodeId));
      }
    }
  }

  lemma {:induction false} PairsWithoutSignalDistinct(s: seq<Pair>, signalId: nat)
    requires DistinctKeys(s)
    ensures DistinctKeys(PairsWithoutSignal(s, signalId))
  {
    if s != [] {
      DistinctTail(s);
      PairsWithoutSignalDistinct(s[1..], signalId);
      if s[0].signalId != signalId {
        DistinctCons(s[0], PairsWithoutSignal(s[1..], signalId));
      }
    }
  }

  // ---------------------------------------------------------------- remove and re-append

  lemma {:induction false} RemoveFirstDistinct(s: seq<Pair>, x: Pair)
    requires DistinctKeys(s) && x in s
    ensures DistinctKeys(RemoveFirst(s, x))
    ensures forall q :: q in RemoveFirst(s, x) ==> !SameKey(q, x)
  {
    DistinctTail(s);
    if s[0] != x {
      assert x in s[1..];
      RemoveFirstDistinct(s[1..], x);
      DistinctCons(s[0], RemoveFirst(s[1..], x));
    }
  }

  lemma {:induction false} PairsOfNodeAppend(s: seq<Pair>, y: Pair, nodeId: NodeId)
    ensures PairsOfNode(s + [y], nodeId) == PairsOfNode(s, nodeId) + (if y.nodeId == nodeId then [y] else [])
  {
    if s == [] {
      assert [] + [y] == [y];
    } else {
      assert (s + [y])[0] == s[0];
      assert (s + [y])[1..] == s[1..] + [y];
      PairsOfNodeAppend(s[1..], y, nodeId);
    }
  }

  lemma {:induction false} PairsOfNodeRemoveFirst(s: seq<Pair>, x: Pair, nodeId: NodeId)
    requires x in s
    ensures |PairsOfNode(RemoveFirst(s, x), nodeId)| == |PairsOfNode(s, nodeId)| - (if x.nodeId == nodeId then 1 else 0)
  {
    if s[0] != x {
      assert x in s[1..];
      PairsOfNodeRemoveFirst(s[1..], x, nodeId);
      var t := [s[0]] + RemoveFirst(s[1..], x);
      assert t[0] == s[0] && t[1..] == RemoveFirst(s[1..], x);
    }
  }

  /** A pair after the inner loop of pass 2 over `moving`. */
  function Moved(moving: seq<Pair>, p: Pair): Pair {
    if p in moving then p.(collision := true) else p
  }

  /** The inner loop of pass 2 leaves the same pairs, with the moved ones
      marked as collided, and keeps keys distinct and per-node counts. */
  lemma {:induction false} MoveCollidedSpec(cur: seq<Pair>, moving: seq<Pair>)
    requires DistinctKeys(cur) && DistinctKeys(moving)
    requires forall m :: m in moving ==> m in cur
    ensures DistinctKeys(MoveCollided(cur, moving))
    ensures |MoveCollided(cur, moving)| == |cur|
    ensures forall nodeId :: |PairsOfNode(MoveCollided(cur, moving), nodeId)| == |PairsOfNode(cur, nodeId)|
    ensures forall p :: p in cur ==> Moved(moving, p) in MoveCollided(cur, moving)
    ensures forall q :: q in MoveCollided(cur, moving) ==> exists p :: p in cur && q == Moved(moving, p)
    decreases |moving|
  {
    if moving != [] {
      var x := moving[0];
      var y := x.(collision := true);
      var removed := RemoveFirst(cur, x);
      var mid := removed + [y];
      RemoveFirstDistinct(cur, x);
      DistinctSnoc(removed, y);
      forall nodeId ensures |PairsOfNode(mid, nodeId)| == |PairsOfNode(cur, nodeId)| {
        PairsOfNodeRemoveFirst(cur, x, nodeId);
        PairsOfNodeAppend(removed, y, nodeId);
      }
      DistinctTail(moving);
      forall m | m in moving[1..] ensures m in mid {
        assert m in cur && m != x;
      }
      MoveCollidedSpec(mid, moving[1..]);
      var r := MoveCollided(mid, moving[1..]);
      assert y !in moving[1..];
      assert Moved(moving[1..], y) == y;
      forall p | p in cur ensures Moved(moving, p) in r {
        if p == x {
          assert y in mid;
        } else {
          assert p in mid;
          assert Moved(moving, p) == Moved(moving[1..], p);
        }
      }
      forall q | q in r ensures exists p :: p in cur && q == Moved(moving, p) {
        var w :| w in mid && q == Moved(moving[1..], w);
        if w == y {
          assert q == Moved(moving, x);
        } else {
          assert w in removed;
          assert w != x;
          assert q == Moved(moving, w);
        }
      }
    }
  }

  // ---------------------------------------------------------------- pass 2

  lemma NodesWithIdCons(nodes: seq<NodeRecord>, nodeId: NodeId)
    requires nodes != []
    ensures NodesWithId(nodes, nodeId) != [] <==> nodes[0].id == nodeId || NodesWithId(nodes[1..], nodeId) != []
  {
  }

  /** A pair after the outer loop of pass 2 has visited node `nodeId`. */
  function MarkedAt(pairs: seq<Pair>, nodeId: NodeId, p: Pair): Pair {
    p.(collision := p.collision || (p.nodeId == nodeId && |PairsOfNode(pairs, nodeId)| > 1))
  }

  /** One iteration of the outer loop of pass 2. */
  lemma MarkNodeSpec(cur: seq<Pair>, nodeId: NodeId)
    requires DistinctKeys(cur)
    ensures DistinctKeys(MarkNode(cur, nodeId))
    ensures |MarkNode(cur, nodeId)| == |cur|
    ensures forall m :: |PairsOfNode(MarkNode(cur, nodeId), m)| == |PairsOfNode(cur, m)|
    ensures forall p :: p in cur ==> MarkedAt(cur, nodeId, p) in MarkNode(cur, nodeId)
    ensures forall q :: q in MarkNode(cur, nodeId) ==> exists p :: p in cur && q == MarkedAt(cur, nodeId, p)
  {
    var mine := PairsOfNode(cur, nodeId);
    if |mine| > 1 {
      PairsOfNodeDistinct(cur, nodeId);
      MoveCollidedSpec(cur, mine);
      forall p | p in cur ensures MarkedAt(cur, nodeId, p) == Moved(mine, p) {
      }
    } else {
      forall q | q in cur ensures exists p :: p in cur && q == MarkedAt(cur, nodeId, p) {
        assert q == MarkedAt(cur, nodeId, q);
      }
    }
  }

  /** Visiting the first node and then the rest marks as visiting all. */
  lemma MarkedCompose(nodes: seq<NodeRecord>, cur: seq<Pair>, mid: seq<Pair>, p: Pair)
    requires nodes != []
    requires forall m :: |PairsOfNode(mid, m)| == |PairsOfNode(cur, m)|
    ensures Marked(nodes[1..], mid, MarkedAt(cur, nodes[0].id, p)) == Marked(nodes, cur, p)
  {
    NodesWithIdCons(nodes, p.nodeId);
    assert |PairsOfNode(mid, p.nodeId)| == |PairsOfNode(cur, p.nodeId)|;
  }

  /** Pass 2 over a list of nodes keeps keys distinct, the table length and
      the number of pairs of every node. */
  lemma {:induction false} MarkNodesShape(cur: seq<Pair>, nodes: seq<NodeRecord>)
    requires DistinctKeys(cur)
    ensures DistinctKeys(MarkNodes(cur, nodes))
    ensures |MarkNodes(cur, nodes)| == |cur|
    ensures forall nodeId :: |PairsOfNode(MarkNodes(cur, nodes), nodeId)| == |PairsOfNode(cur, nodeId)|
    decreases |nodes|
  {
    if nodes != [] {
      MarkNodeSpec(cur, nodes[0].id);
      MarkNodesShape(MarkNode(cur, nodes[0].id), nodes[1..]);
    }
  }

  /** Every pair of the table is found, marked, after pass 2 over a list of nodes. */
  lemma {:induction false} MarkNodesKeeps(cur: seq<Pair>, nodes: seq<NodeRecord>)
    requires DistinctKeys(cur)
    ensures forall p :: p in cur ==> Marked(nodes, cur, p) in MarkNodes(cur, nodes)
    decreases |nodes|
  {
    if nodes != [] {
      var id0 := nodes[0].id;
      var mid := MarkNode(cur, id0);
      MarkNodeSpec(cur, id0);
      MarkNodesKeeps(mid, nodes[1..]);
      forall p | p in cur ensures Marked(nodes, cur, p) in MarkNodes(cur, nodes) {
        MarkedCompose(nodes, cur, mid, p);
        assert MarkedAt(cur, id0, p) in mid;
      }
    }
  }

  /** Every pair after pass 2 over a list of nodes is a marked pair of the table. */
  lemma {:induction false} MarkNodesOnly(cur: seq<Pair>, nodes: seq<NodeRecord>)
    requires DistinctKeys(cur)
    ensures forall q :: q in MarkNodes(cur, nodes) ==> exists p :: p in cur && q == Marked(nodes, cur, p)
    decreases |nodes|
  {
    if nodes == [] {
      forall q | q in cur ensures exists p :: p in cur && q == Marked(nodes, cur, p) {
        assert q == Marked(nodes, cur, q);
      }
    } else {
      var id0 := nodes[0].id;
      var mid := MarkNode(cur, id0);
      MarkNodeSpec(cur, id0);
      MarkNodesOnly(mid, nodes[1..]);
      assert MarkNodes(cur, nodes) == MarkNodes(mid, nodes[1..]);
      forall q | q in MarkNodes(cur, nodes) ensures exists p :: p in cur && q == Marked(nodes, cur, p) {
        var w :| w in mid && q == Marked(nodes[1..], mid, w);
        var p :| p in cur && w == MarkedAt(cur, id0, p);
        MarkedCompose(nodes, cur, mid, p);
        assert q == Marked(nodes, cur, p);
      }
    }
  }

  /** Pass 2 keeps exactly the recorded (signal, node) combinations and
      every other field of each pair, sets the collision flag of every pair
      of a registered node that has more than one pair, and clears no flag. */
  lemma RecordCollisionsSpec(t: Tables)
    requires DistinctKeys(t.pairs)
    ensures var r := RecordCollisions(t).pairs;
      && DistinctKeys(r) && |r| == |t.pairs|
      && (forall p :: p in t.pairs ==> Marked(t.nodes, t.pairs, p) in r)
      && (forall q :: q in r ==> exists p :: p in t.pairs && q == Marked(t.nodes, t.pairs, p))
    ensures forall p, q :: p in t.pairs && q in RecordCollisions(t).pairs && SameKey(p, q) ==>
      q == p.(collision := q.collision) && (p.collision ==> q.collision)
      && (q.collision <==> p.collision || Crowded(t.nodes, t.pairs, p.nodeId))
    ensures RecordCollisions(t).nodes == t.nodes && RecordCollisions(t).signals == t.signals
  {
    MarkNodesShape(t.pairs, t.nodes);
    MarkNodesKeeps(t.pairs, t.nodes);
    MarkNodesOnly(t.pairs, t.nodes);
    var r := RecordCollisions(t).pairs;
    forall p, q | p in t.pairs && q in r && SameKey(p, q)
      ensures q == p.(collision := q.collision) && (q.collision <==> p.collision || Crowded(t.nodes, t.pairs, p.nodeId))
    {
      var w :| w in t.pairs && q == Marked(t.nodes, t.pairs, w);
      DistinctFindsOne(t.pairs, p);
      assert w in PairsWith(t.pairs, p.signalId, p.nodeId);
    }
  }

  // ---------------------------------------------------------------- pass 3

  /** Increasing ids leave at most one signal per id. */
  lemma {:induction false} SignalIdsAtMostOne(signals: seq<Signal>, id: nat)
    requires IdsIncreasing(signals)
    ensures |SignalsWithId(signals, id)| <= 1
  {
    if signals != [] {
      assert IdsIncreasing(signals[1..]);
      SignalIdsAtMostOne(signals[1..], id);
      if signals[0].id == id {
        forall s | s in signals[1..] ensures s.id != id {
          var k :| 0 <= k < |signals[1..]| && signals[1..][k] == s;
          assert signals[k + 1] == s;
        }
        NoneWithId(signals[1..], id);
      }
    }
  }

  lemma {:induction false} NoneWithId(signals: seq<Signal>, id: nat)
    requires forall s :: s in signals ==> s.id != id
    ensures SignalsWithId(signals, id) == []
  {
    if signals != [] {
      assert signals[0] in signals;
      NoneWithId(signals[1..], id);
    }
  }

  /** Ageing keeps every id below a bound that held before. */
  lemma AgedIdsBelow(signals: seq<Signal>, bound: nat)
    requires forall s :: s in signals ==> s.id < bound
    ensures forall s :: s in Aged(signals) ==> s.id < bound
  {
    AgedSpec(signals);
    forall s | s in Aged(signals) ensures s.id < bound {
      var o :| o in signals && o.time > 1 && s == o.(time := o.time - 1);
    }
  }

  lemma IncreasingSnoc(signals: seq<Signal>, z: Signal)
    requires IdsIncreasing(signals)
    requires forall s :: s in signals ==> s.id < z.id
    ensures IdsIncreasing(signals + [z])
  {
    forall i, j | 0 <= i < j < |signals + [z]| ensures (signals + [z])[i].id < (signals + [z])[j].id {
      if j == |signals| {
        assert signals[i] in signals;
      }
    }
  }

  /** Ageing keeps signal ids increasing. */
  lemma {:induction false} AgedIncreasing(signals: seq<Signal>)
    requires IdsIncreasing(signals)
    ensures IdsIncreasing(Aged(signals))
    decreases |signals|
  {
    if signals != [] {
      var init := signals[..|signals| - 1];
      var last := signals[|signals| - 1];
      assert IdsIncreasing(init);
      AgedIncreasing(init);
      forall s | s in init ensures s.id < last.id {
        var i :| 0 <= i < |init| && init[i] == s;
        assert signals[i] == s;
      }
      AgedIdsBelow(init, last.id);
      if last.time - 1 > 0 {
        IncreasingSnoc(Aged(init), last.(time := last.time - 1));
      }
    }
  }

  lemma {:induction false} DropExpiredDistinct(pairs: seq<Pair>, signals: seq<Signal>)
    requires DistinctKeys(pairs)
    ensures DistinctKeys(DropExpired(pairs, signals))
    decreases |signals|
  {
    if signals != [] {
      var init := signals[..|signals| - 1];
      var last := signals[|signals| - 1];
      DropExpiredDistinct(pairs, init);
      PairsWithoutSignalDistinct(DropExpired(pairs, init), last.id);
    }
  }

  /** A signal that survives a tick comes from a signal with a countdown
      above 1 and the same id. */
  lemma AgedOrigin(signals: seq<Signal>, s: Signal)
    requires s in Aged(signals)
    ensures exists o :: o in signals && o.time > 1 && o.id == s.id
  {
    AgedSpec(signals);
    var o :| o in signals && o.time > 1 && s == o.(time := o.time - 1);
  }

  /** With increasing ids, a signal is the only one with its id. */
  lemma OnlyOneWithId(signals: seq<Signal>, o: Signal)
    requires IdsIncreasing(signals) && o in signals
    ensures forall e :: e in signals && e.id == o.id ==> e == o
  {
    SignalIdsAtMostOne(signals, o.id);
    var f := SignalsWithId(signals, o.id);
    assert o in f;
    forall e | e in signals && e.id == o.id ensures e == o {
      assert e in f;
      assert f == [f[0]];
    }
  }

  lemma UniqueNotExpired(signals: seq<Signal>, o: Signal)
    requires o in signals && o.time > 1
    requires forall e :: e in signals && e.id == o.id ==> e == o
    ensures o.id !in ExpiredIds(signals)
  {
  }

  /** With unique ids, a surviving signal's id is not among the retired. */
  lemma SurvivorNotExpired(signals: seq<Signal>, s: Signal)
    requires IdsIncreasing(signals) && s in Aged(signals)
    ensures s.id !in ExpiredIds(signals)
  {
    AgedOrigin(signals, s);
    var o :| o in signals && o.time > 1 && o.id == s.id;
    OnlyOneWithId(signals, o);
    UniqueNotExpired(signals, o);
  }

  // ---------------------------------------------------------------- the invariant

  /** Sending a packet keeps the invariant; the new signal has the largest id. */
  lemma PropagateKeepsInv(t: Tables, p: Packet)
    requires Inv(t) && Propagated(t, p).Ok?
    ensures Inv(Propagated(t, p).value)
    ensures forall s :: s in t.signals ==> s.id < Propagated(t, p).value.signals[|t.signals|].id
  {
    var r := Propagated(t, p).value;
    var n :| n in t.nodes && n.id == p.sender
      && r == t.(signals := t.signals + [NewSignal(n, t.signalIdCounter, p)], signalIdCounter := t.signalIdCounter + 1);
    forall q | q in r.pairs ensures SignalsWithId(r.signals, q.signalId) != [] {
      var s := SignalsWithId(t.signals, q.signalId)[0];
      assert s in SignalsWithId(t.signals, q.signalId);
      assert s in r.signals;
    }
    forall i, j | 0 <= i < j < |r.signals| ensures r.signals[i].id < r.signals[j].id {
      if j == |t.signals| {
        assert t.signals[i] in t.signals;
      }
    }
  }

  lemma CreatePairsKeepsInv(t: Tables)
    requires Inv(t)
    ensures Inv(CreatePairs(t))
  {
    AddPairsSpec(t.signals, t.nodes, t.pairs, t.pairIdCounter);
    var r := CreatePairs(t);
    forall q | q in r.pairs ensures SignalsWithId(r.signals, q.signalId) != [] {
      var i :| 0 <= i < |r.pairs| && r.pairs[i] == q;
      if i < |t.pairs| {
        assert r.pairs[..|t.pairs|][i] == q;
        assert q in t.pairs;
      } else {
        assert Created(t.signals, t.nodes, q);
        var s, n :| s in t.signals && n in t.nodes && s.id == q.signalId && n.id == q.nodeId && InRange(s, n);
        assert s in SignalsWithId(r.signals, q.signalId);
      }
    }
  }

  lemma RecordCollisionsKeepsInv(t: Tables)
    requires Inv(t)
    ensures Inv(RecordCollisions(t))
  {
    RecordCollisionsSpec(t);
    var r := RecordCollisions(t);
    forall q | q in r.pairs ensures SignalsWithId(r.signals, q.signalId) != [] {
      var p :| p in t.pairs && q == Marked(t.nodes, t.pairs, p);
      assert p.signalId == q.signalId;
    }
  }

  lemma AgedBounds(signals: seq<Signal>, counter: nat)
    requires forall s :: s in signals ==> s.id < counter && 1 <= s.time <= SignalLifetime
    ensures forall s :: s in Aged(signals) ==> s.id < counter && 1 <= s.time <= SignalLifetime
  {
    AgedSpec(signals);
    forall s | s in Aged(signals) ensures s.id < counter && 1 <= s.time <= SignalLifetime {
      var o :| o in signals && o.time > 1 && s == o.(time := o.time - 1);
    }
  }

  /** A pair that survives a tick names a signal that survives it. */
  lemma DropExpiredLive(pairs: seq<Pair>, signals: seq<Signal>)
    requires forall p :: p in pairs ==> SignalsWithId(signals, p.signalId) != []
    ensures forall p :: p in DropExpired(pairs, signals) ==> SignalsWithId(Aged(signals), p.signalId) != []
  {
    AgedSpec(signals);
    DropExpiredSpec(pairs, signals);
    forall q | q in DropExpired(pairs, signals) ensures SignalsWithId(Aged(signals), q.signalId) != [] {
      assert q in pairs && q.signalId !in ExpiredIds(signals);
      var o := SignalsWithId(signals, q.signalId)[0];
      assert o in SignalsWithId(signals, q.signalId);
      assert o.(time := o.time - 1) in SignalsWithId(Aged(signals), q.signalId);
    }
  }

  lemma UpdatePropagationCountersKeepsInv(t: Tables)
    requires Inv(t)
    ensures Inv(UpdatePropagationCounters(t))
  {
    AgedIncreasing(t.signals);
    DropExpiredDistinct(t.pairs, t.signals);
    AgedBounds(t.signals, t.signalIdCounter);
    DropExpiredLive(t.pairs, t.signals);
  }

  /** A tick keeps the invariant. */
  lemma TickKeepsInv(t: Tables)
    requires Inv(t)
    ensures Inv(Tick(t))
  {
    CreatePairsKeepsInv(t);
    RecordCollisionsKeepsInv(CreatePairs(t));
    UpdatePropagationCountersKeepsInv(RecordCollisions(CreatePairs(t)));
  }

  /** Under the invariant every pair names exactly one live signal, so the
      signal lookup in `Listen` never fails. */
  lemma ListenNeverFails(t: Tables, nodeId: NodeId)
    requires Inv(t)
    ensures forall p :: p in t.pairs ==> |SignalsWithId(t.signals, p.signalId)| == 1
    ensures Listen(t.signals, t.pairs, nodeId).Ok?
  {
    forall p | p in t.pairs ensures |SignalsWithId(t.signals, p.signalId)| == 1 {
      SignalIdsAtMostOne(t.signals, p.signalId);
    }
    var mine := PairsOfNode(t.pairs, nodeId);
    if |mine| == 1 {
      assert mine[0] in mine;
    }
  }

  // ---------------------------------------------------------------- pass 1

  /** After pass 1, every in-range signal/node combination has exactly one
      pair, the pairs recorded before are unchanged and in place, and every
      new pair is clean and joins a signal to a node in range of it. */
  lemma CreatePairsSpec(t: Tables)
    requires DistinctKeys(t.pairs)
    ensures var r := CreatePairs(t).pairs;
      && DistinctKeys(r)
      && (forall s, n :: s in t.signals && n in t.nodes && InRange(s, n) ==> |PairsWith(r, s.id, n.id)| == 1)
      && |r| >= |t.pairs| && r[..|t.pairs|] == t.pairs
      && (forall i :: |t.pairs| <= i < |r| ==> Created(t.signals, t.nodes, r[i]))
    ensures CreatePairs(t).signals == t.signals && CreatePairs(t).nodes == t.nodes
  {
    AddPairsSpec(t.signals, t.nodes, t.pairs, t.pairIdCounter);
    var r := CreatePairs(t).pairs;
    forall s, n | s in t.signals && n in t.nodes && InRange(s, n) ensures |PairsWith(r, s.id, n.id)| == 1 {
      assert Recorded(r, s, n);
      var q :| q in r && q.signalId == s.id && q.nodeId == n.id;
      DistinctFindsOne(r, q);
    }
  }

  // ---------------------------------------------------------------- sticky collisions

  /** A collision flag, once set, is still set after a tick for as long as
      the pair exists. */
  lemma CollisionSticky(t: Tables)
    requires Inv(t)
    ensures forall p, q :: p in t.pairs && p.collision && q in Tick(t).pairs && SameKey(p, q) ==> q.collision
  {
    DropExpiredSpec(RecordCollisions(CreatePairs(t)).pairs, t.signals);
    var c := CreatePairs(t);
    CreatePairsSpec(t);
    RecordCollisionsSpec(c);
    forall p, q | p in t.pairs && p.collision && q in Tick(t).pairs && SameKey(p, q) ensures q.collision {
      var i :| 0 <= i < |t.pairs| && t.pairs[i] == p;
      assert c.pairs[i] == p;
      assert q in RecordCollisions(c).pairs;
    }
  }

  /** A collided pair is left as it is by passes 1 and 2. */
  lemma CollidedPairKept(t: Tables, p: Pair)
    requires Inv(t) && p in t.pairs && p.collision
    ensures p in RecordCollisions(CreatePairs(t)).pairs
  {
    var c := CreatePairs(t);
    CreatePairsSpec(t);
    RecordCollisionsSpec(c);
    var i :| 0 <= i < |t.pairs| && t.pairs[i] == p;
    assert c.pairs[i] == p;
    assert Marked(c.nodes, c.pairs, p) == p;
  }

  /** Pass 3 keeps a pair whose signal survives it. */
  lemma PairOfSurvivorKept(t: Tables, q: Pair)
    requires Inv(t) && q in t.pairs
    requires SignalsWithId(Aged(t.signals), q.signalId) != []
    ensures q in UpdatePropagationCounters(t).pairs
  {
    DropExpiredSpec(t.pairs, t.signals);
    var s := SignalsWithId(Aged(t.signals), q.signalId)[0];
    assert s in SignalsWithId(Aged(t.signals), q.signalId);
    SurvivorNotExpired(t.signals, s);
  }

  /** A collided pair of a node makes the node hear BUSY. */
  lemma CollidedNodeBusy(signals: seq<Signal>, pairs: seq<Pair>, q: Pair)
    requires q in pairs && q.collision
    requires Listen(signals, pairs, q.nodeId).Ok?
    ensures Listen(signals, pairs, q.nodeId) == Ok(Busy)
  {
    var mine := PairsOfNode(pairs, q.nodeId);
    assert q in mine;
    if |mine| == 1 {
      assert mine[0] == q;
    }
  }

  /** A node with a collided pair whose signal is still live after the tick
      hears BUSY after it. */
  lemma CollidedPairStaysBusy(t: Tables, p: Pair)
    requires Inv(t) && p in t.pairs && p.collision
    requires SignalsWithId(Tick(t).signals, p.signalId) != []
    ensures Listen(Tick(t).signals, Tick(t).pairs, p.nodeId) == Ok(Busy)
  {
    var m := RecordCollisions(CreatePairs(t));
    CollidedPairKept(t, p);
    CreatePairsKeepsInv(t);
    RecordCollisionsKeepsInv(CreatePairs(t));
    PairOfSurvivorKept(m, p);
    TickKeepsInv(t);
    ListenNeverFails(Tick(t), p.nodeId);
    CollidedNodeBusy(Tick(t).signals, Tick(t).pairs, p);
  }
}
