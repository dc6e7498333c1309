/** What the methods of the bus need to know about its containers. */
module NocBusFacts {
  import opened Arith
  import opened Wrappers
  import opened RouteTable
  import opened NocState
  import opened NocInvariant
  import opened NocNodeStep
  import opened NocFlow
  import opened NocPhases
  import opened NocStages
  import opened NocSystem
  import opened NocEndpoints
  import opened NocRuns

  lemma NextIsThere(T: Topology, n: NodeId, t: NodeId)
    requires T.Valid() && n in T.nodes && t in T.nodes && n != t
    ensures n in T.route && t in T.route[n] && T.Next(n, t) == T.route[n][t] && (n, T.Next(n, t)) in T.links
  {
    NextReaches(T, n, t);
    DistanceStep(T.nodes, T.route, n, t);
    Hop(T, n, t);
  }

  lemma SeenNode(T: Topology, sent: seq<Message>, s: Net, n: NodeId)
    requires n in s.nodes && ViewOk(T, sent, n, GetView(T, s, n))
    ensures GetView(T, s, n).node == s.nodes[n]
    ensures PointerOk(s.nodes[n].rxPtr, |T.Rxs(n)|) && PointerOk(s.nodes[n].sdPtr, |T.Attached(n)|)
  {
    hide PipeOk, SlotsOk, QueuesOk;
    ViewNode(T, s, n);
  }

  lemma SeenLink(T: Topology, sent: seq<Message>, s: Net, n: NodeId, ptr: nat)
    requires T.Valid() && n in T.nodes && n in s.nodes && ViewOk(T, sent, n, GetView(T, s, n)) && ptr < |T.Rxs(n)|
    ensures var k, v := T.Rxs(n)[ptr], GetView(T, s, n);
            k in v.rx && (k, n) in s.edges && v.rx[k] == s.edges[(k, n)].output && |v.rx[k]| == T.Channels()
  {
    hide PipeOk, QueuesOk, GetView, AllReachable;
    var k := T.Rxs(n)[ptr];
    assert k in T.Rxs(n);
    assert (k, n) in T.links;
    SeenSlots(T, s, n, k);
  }

  lemma SeenSlots(T: Topology, s: Net, n: NodeId, k: NodeId)
    requires n in s.nodes && k in GetView(T, s, n).rx
    ensures (k, n) in s.edges && GetView(T, s, n).rx[k] == s.edges[(k, n)].output
  {
  }

  lemma SeenInput(T: Topology, s: Net, n: NodeId, m: NodeId)
    requires n in s.nodes && m in GetView(T, s, n).tx
    ensures (n, m) in s.edges && GetView(T, s, n).tx[m] == s.edges[(n, m)].input
  {
  }

  lemma SeenOwn(T: Topology, s: Net, n: NodeId, q: PortId)
    requires n in s.nodes && q in GetView(T, s, n).ports
    ensures q in s.ports && GetView(T, s, n).ports[q] == s.ports[q]
  {
  }

  lemma SeenPorts(T: Topology, s: Net, n: NodeId)
    requires n in s.nodes
    ensures forall q :: q in GetView(T, s, n).ports ==> q in s.ports && s.ports[q] == GetView(T, s, n).ports[q]
  {
  }

  lemma SeenPointer(T: Topology, sent: seq<Message>, n: NodeId, v: View)
    requires ViewOk(T, sent, n, v)
    ensures PointerOk(v.node.sdPtr, |T.Attached(n)|)
  {
    hide PipeOk, SlotsOk, QueuesOk;
  }

  lemma SeenPort(T: Topology, sent: seq<Message>, n: NodeId, v: View, ptr: nat)
    requires T.Valid() && n in T.nodes && ViewOk(T, sent, n, v) && ptr < |T.Attached(n)|
    ensures var q := T.Attached(n)[ptr]; q in v.ports && |v.ports[q].sendBuf| == T.Channels()
  {
    hide PipeOk, SlotsOk, GetView, AllReachable;
    var q := T.Attached(n)[ptr];
    assert q in T.Attached(n);
    assert q in T.port2node;
    assert QueuesOk(T, sent, q, v.ports[q]);
  }

  // ----- The pass over the pipeline -----

  /** `kept` and `tx` are what the pass has made so far of the packets before `rest`. */
  ghost predicate PassDone(T: Topology, n: NodeId, v: View, kept: seq<Piped>, rest: seq<Piped>,
                           tx: map<NodeId, Slots>) {
    var r := Release(T, n, rest, tx);
    Release(T, n, v.node.pipeline, v.tx) == (kept + r.0, r.1)
  }

  /** The head of the rest: where it goes, and what the pass has done once it is dealt with. */
  lemma PassHead(T: Topology, sent: seq<Message>, n: NodeId, v: View, kept: seq<Piped>, rest: seq<Piped>,
                 tx: map<NodeId, Slots>)
    requires T.Valid() && n in T.nodes && rest != [] && PassDone(T, n, v, kept, rest, tx)
    requires AllStay(T, sent, n, rest) && TxOk(T, sent, n, tx) && (forall m :: m in tx <==> (n, m) in T.links)
    ensures var e, m := rest[0], T.Next(n, rest[0].pack.tgt);
            && e.pack.tgt in T.nodes && e.pack.tgt != n && m in tx && e.pack.cha < |tx[m]|
            && (e.remain > 0 ==> PassDone(T, n, v, kept + [e.(remain := e.remain - 1)], rest[1..], tx))
            && (e.remain == 0 && tx[m][e.pack.cha].Some? ==> PassDone(T, n, v, kept + [e], rest[1..], tx))
            && (e.remain == 0 && tx[m][e.pack.cha].None? ==>
                  var tx' := tx[m := tx[m][e.pack.cha := Some(e.pack)]];
                  PassDone(T, n, v, kept, rest[1..], tx') && TxOk(T, sent, n, tx'))
    ensures AllStay(T, sent, n, rest[1..])
  {
    hide OnPath, AllReachable, Release, Topology.Valid;
    var e, m := rest[0], T.Next(n, rest[0].pack.tgt);
    PassPlace(T, sent, n, e, tx);
    PassRelease(T, n, rest, tx);
    assert forall a: seq<Piped>, b: seq<Piped>, x {:trigger a + ([x] + b)} :: a + ([x] + b) == (a + [x]) + b;
    if e.remain == 0 && tx[m][e.pack.cha].None? {
      FilledOk(T, sent, n, e, tx);
    }
    AllStayRest(T, sent, n, rest);
  }

  lemma AllStayRest(T: Topology, sent: seq<Message>, n: NodeId, rest: seq<Piped>)
    requires rest != [] && AllStay(T, sent, n, rest)
    ensures AllStay(T, sent, n, rest[1..])
  {
    hide StaysOk;
  }

  lemma PassRelease(T: Topology, n: NodeId, rest: seq<Piped>, tx: map<NodeId, Slots>)
    requires rest != []
    ensures Release(T, n, rest, tx) ==
            (var r := Release(T, n, rest[1..], Filled(T, n, rest[0], tx));
             if Leaves(T, n, rest[0], tx) then r else ([Aged(rest[0])] + r.0, r.1))
  {
  }

  lemma PassPlace(T: Topology, sent: seq<Message>, n: NodeId, e: Piped, tx: map<NodeId, Slots>)
    requires T.Valid() && n in T.nodes && StaysOk(T, sent, n, e) && TxOk(T, sent, n, tx)
    requires forall m :: m in tx <==> (n, m) in T.links
    ensures e.pack.tgt in T.nodes && e.pack.tgt != n
    ensures var m := T.Next(n, e.pack.tgt); m in tx && e.pack.cha < |tx[m]|
  {
    hide OnPath, AllReachable;
    assert e.pack.tgt in T.nodes;
    Hop(T, n, e.pack.tgt);
    var m := T.Next(n, e.pack.tgt);
    assert m in tx;
    assert SlotsOk(T, sent, n, m, tx[m]);
  }

  lemma FilledOk(T: Topology, sent: seq<Message>, n: NodeId, e: Piped, tx: map<NodeId, Slots>)
    requires StaysOk(T, sent, n, e) && TxOk(T, sent, n, tx)
    ensures TxOk(T, sent, n, Filled(T, n, e, tx))
  {
    hide OnPath;
  }

  lemma PassStarts(T: Topology, n: NodeId, v: View)
    ensures PassDone(T, n, v, [], v.node.pipeline, v.tx)
  {
    hide Release;
    var r := Release(T, n, v.node.pipeline, v.tx);
    assert [] + r.0 == r.0;
  }

  lemma PassEnds(T: Topology, n: NodeId, v: View, kept: seq<Piped>, tx: map<NodeId, Slots>)
    requires PassDone(T, n, v, kept, [], tx)
    ensures Release(T, n, v.node.pipeline, v.tx) == (kept, tx)
  {
    assert kept + [] == kept;
  }

  // ----- From stage to stage -----

  /** One more stage: the bus is the old one with node `n`'s view replaced, and that is what the node now sees. */
  lemma StageSeen(T: Topology, s: Net, now: Net, n: NodeId, v: View, w: View)
    requires n in s.nodes && Wired(T, s) && SameKeys(v, GetView(T, s, n)) && SameKeys(w, v)
    requires now == PutView(s, n, w) || (n in PutView(s, n, v).nodes && now == PutView(PutView(s, n, v), n, w))
    ensures now == PutView(s, n, w) && n in now.nodes && GetView(T, now, n) == w && now.nodes[n] == w.node
  {
    hide GetView, PutView, Wired;
    PutPut(s, n, v, w);
    ViewOfPut(T, s, n, w);
    ViewNode(T, now, n);
  }

  /** What the stages of a node's step may rely on: after the search, */
  lemma FoundReady(T: Topology, sent: seq<Message>, n: NodeId, v: View)
    requires ViewOk(T, sent, n, v)
    ensures var cand, w := Arbitrate(T.Rxs(n), T.Attached(n), v).choice, Found(T, n, v);
            && SameKeys(w, v) && Chosen(w, cand) == Chosen(v, cand) && w.node.buffered == v.node.buffered
            && PointerOk(w.node.rxPtr, |T.Rxs(n)|) && PointerOk(w.node.sdPtr, |T.Attached(n)|)
  {
    hide ScanLinks, ScanPorts, Chosen, PipeOk, SlotsOk, QueuesOk;
    ScanLinksPointer(T.Rxs(n), v.rx, v.node.rxPtr, |T.Rxs(n)|);
    ScanPortsPointer(T.Attached(n), v.ports, v.node.sdPtr, |T.Attached(n)|);
    hide Arbitrate;
    FoundFrame(T, n, v, Arbitrate(T.Rxs(n), T.Attached(n), v).choice);
  }

  /** once the candidate is detached, */
  lemma DetachedReady(T: Topology, sent: seq<Message>, n: NodeId, v: View)
    requires T.Valid() && n in T.nodes && ViewOk(T, sent, n, v)
    ensures var cand, w := Arbitrate(T.Rxs(n), T.Attached(n), v).choice, Found(T, n, v);
            Chosen(w, cand) == Chosen(v, cand) &&
            (Chosen(v, cand).Some? && Accepts(T, n, v.node.buffered, Chosen(v, cand).value) ==>
               var p, d := Chosen(v, cand).value, Detached(T, n, w, cand);
               && SameKeys(d, w) && SameKeys(Admitted(T, n, d, p), d)
               && (p.tgt == n ==> p.dst in d.ports && p.cha < |d.ports[p.dst].recvBuf|))
  {
    hide Topology.Valid, Arbitrate, ViewOk, Found, Detached, Admitted, SameKeys, OnPath, RightPlace, Chosen;
    var cand, w := Arbitrate(T.Rxs(n), T.Attached(n), v).choice, Found(T, n, v);
    FoundFrame(T, n, v, cand);
    if Chosen(v, cand).Some? && Accepts(T, n, v.node.buffered, Chosen(v, cand).value) {
      var p := Chosen(v, cand).value;
      var d := Detached(T, n, w, cand);
      assert Taken(T, n, v) == cand && Entering(T, n, v) == Some(p);
      EnteringOk(T, sent, n, v);
      DetachedKeys(T, n, w, cand);
      AdmittedKeys(T, n, d, p);
      if p.tgt == n {
        DestinationSeen(T, sent, n, v, p);
        assert SameKeys(d, w) && p.dst in d.ports;
      }
    }
  }

  lemma DestinationSeen(T: Topology, sent: seq<Message>, n: NodeId, v: View, p: Packet)
    requires ViewOk(T, sent, n, v) && Genuine(T, sent, p) && p.tgt == n
    ensures p.dst in v.ports && |v.ports[p.dst].recvBuf| == T.Channels() && p.cha < T.Channels()
  {
    hide PipeOk, SlotsOk;
    assert p.dst in v.ports;
    assert QueuesOk(T, sent, p.dst, v.ports[p.dst]);
  }

  /** and before the pass over the pipeline. */
  lemma ReleaseReady(T: Topology, sent: seq<Message>, n: NodeId, v: View)
    requires T.Valid() && n in T.nodes && ViewOk(T, sent, n, v) && CounterExact(T, v.node)
    ensures var a := AfterAdmission(T, n, v);
            && AllStay(T, sent, n, a.node.pipeline) && TxOk(T, sent, n, a.tx) && CounterExact(T, a.node)
            && (forall m :: m in a.tx <==> (n, m) in T.links)
            && SameKeys(Released(T, n, a), a)
  {
    hide Topology.Valid, AfterAdmission, Released, OnPath, RightPlace, SlotsOk, QueuesOk, AllStay, Entering, PipeIn,
      Handed, RxOut, SameKeys, Sorted;
    ArrivedParts(T, n, v);
    EnteringOk(T, sent, n, v);
    PipeInOk(T, sent, n, v);
    ReleasedKeys(T, n, AfterAdmission(T, n, v));
  }

  // ----- The phases of a tick -----

  lemma TickIsPhases(T: Topology, s: Net)
    ensures Tick(T, s) == Refresh(T, EdgePhase(T, NodePhase(T, s))).(tick := s.tick + 1)
    ensures Refresh(T, EdgePhase(T, NodePhase(T, s))).tick == s.tick
  {
    hide ProcessNode, GetView, UpdateCongestion, Transfer, PortAfter, InputAfter, OutputAfter;
  }

  lemma WiredPhases(T: Topology, s: Net)
    requires Wired(T, s)
    ensures s.nodes.Keys == T.nodes && s.edges.Keys == T.links
    ensures NodePhase(T, s).nodes.Keys == T.nodes && NodePhase(T, s).edges.Keys == T.links
    ensures EdgePhase(T, NodePhase(T, s)).nodes.Keys == T.nodes
  {
    hide ProcessNode, GetView, Transfer, PortAfter, InputAfter, OutputAfter;
  }

  /** Visiting every element once visits them all. */
  lemma AllTurns<X>(order: seq<X>, all: set<X>, done: set<X>)
    requires forall x :: x in order <==> x in all
    requires forall x :: x in done <==> x in order[..|order|]
    ensures done == all
  {
    assert order[..|order|] == order;
  }

  lemma NextTurn<X>(order: seq<X>, done: set<X>, i: nat)
    requires Distinct(order) && i < |order|
    requires forall x :: x in done <==> x in order[..i]
    ensures order[i] in order && order[i] !in done
    ensures forall x :: x in done + {order[i]} <==> x in order[..i + 1]
  {
    assert order[..i + 1] == order[..i] + [order[i]];
  }

  /** When its turn comes, a node still sees what it saw at the start of the tick. */
  lemma NodeTurn(T: Topology, h: History, s: Net, done: set<NodeId>, order: seq<NodeId>, i: nat)
    requires T.Valid() && Inv(T, h, s) && Distinct(order) && i < |order|
    requires (forall n :: n in order <==> n in T.nodes) && (forall n :: n in done <==> n in order[..i])
    ensures var n, now := order[i], SomeNodes(T, s, done);
            && n in T.nodes && n in s.nodes && n in now.nodes && Wired(T, now)
            && GetView(T, now, n) == GetView(T, s, n) && ViewOk(T, h.sent, n, GetView(T, now, n))
            && CounterExact(T, now.nodes[n])
            && (SameKeys(ProcessNode(T, n, GetView(T, s, n)), GetView(T, s, n)) ==>
                  PutView(now, n, ProcessNode(T, n, GetView(T, s, n))) == SomeNodes(T, s, done + {n}))
    ensures forall n :: n in done + {order[i]} <==> n in order[..i + 1]
  {
    hide Inv, SomeNodes, GetView, ViewOk, ProcessNode, PutView, Wired, PlacesOk, Topology.Valid, CounterExact, SameKeys;
    var n := order[i];
    NextTurn(order, done, i);
    InvPlaces(T, h, s);
    WiredPhases(T, s);
    ViewIsOk(T, h.sent, s, n);
    ViewUntouched(T, s, done, n);
    StillWired(T, s, done);
    ViewNode(T, s, n);
    ViewNode(T, SomeNodes(T, s, done), n);
    CounterKnown(T, h, s, n);
    if SameKeys(ProcessNode(T, n, GetView(T, s, n)), GetView(T, s, n)) {
      OneMoreNode(T, s, done, n);
    }
  }

  lemma CounterKnown(T: Topology, h: History, s: Net, n: NodeId)
    requires Inv(T, h, s) && n in s.nodes
    ensures CounterExact(T, s.nodes[n])
  {
    hide Inv;
    CounterIs(T, h, s, n);
  }

  lemma StillWired(T: Topology, s: Net, done: set<NodeId>)
    requires Wired(T, s)
    ensures Wired(T, SomeNodes(T, s, done))
  {
    hide SomeNodes, GetView, ProcessNode, InputAfter, OutputAfter, PortAfter;
    SomeNodesAt(T, s, done);
    forall p | p in s.ports ensures T.NodeOf(p) in s.nodes { assert s.ports[p] == s.ports[p]; }
    forall l | l in s.edges ensures l.0 in s.nodes && l.1 in s.nodes { assert s.edges[l] == s.edges[l]; }
  }

  lemma LinkTurn(T: Topology, sent: seq<Message>, s: Net, s1: Net, done: set<Link>, order: seq<Link>, i: nat)
    requires T.Valid() && PlacesOk(T, sent, s) && s1 == NodePhase(T, s) && Distinct(order) && i < |order|
    requires (forall l :: l in order <==> l in T.links) && (forall l :: l in done <==> l in order[..i])
    ensures var l, now := order[i], SomeLinks(T, s1, done);
            && l in s1.edges && l in now.edges && now.edges[l] == s1.edges[l]
            && |now.edges[l].input| == |now.edges[l].output| == T.Channels()
            && now.(edges := now.edges[l := Transfer(T.config.linkWidth, now.edges[l], 0, 0)])
               == SomeLinks(T, s1, done + {l})
    ensures forall l :: l in done + {order[i]} <==> l in order[..i + 1]
  {
    hide NodePhase, PlacesOk, SomeLinks, Transfer, Topology.Valid, Wired;
    var l := order[i];
    NextTurn(order, done, i);
    PlacesWired(T, sent, s);
    WiredPhases(T, s);
    LinkSteps(T, s1, done, l);
    NodePhasePlaces(T, sent, s);
    LinkWidth(T, sent, s1, l);
    LinkThere(T, s1, done, l);
  }

  lemma LinkThere(T: Topology, s: Net, done: set<Link>, l: Link)
    requires l in s.edges
    ensures l in SomeLinks(T, s, done).edges
  {
    hide Transfer;
  }

  lemma PlacesWired(T: Topology, sent: seq<Message>, s: Net)
    requires PlacesOk(T, sent, s)
    ensures Wired(T, s)
  {
  }

  lemma LinkWidth(T: Topology, sent: seq<Message>, s: Net, l: Link)
    requires PlacesOk(T, sent, s) && l in s.edges
    ensures |s.edges[l].input| == |s.edges[l].output| == T.Channels()
  {
    hide NodesOk, PortsOk, RightPlace;
    assert EdgeOk(T, sent, l, s.edges[l]);
  }

  lemma FlagTurn(T: Topology, s: Net, done: set<NodeId>, order: seq<NodeId>, i: nat)
    requires Distinct(order) && i < |order| && s.nodes.Keys == T.nodes
    requires (forall n :: n in order <==> n in T.nodes) && (forall n :: n in done <==> n in order[..i])
    ensures var n, now := order[i], SomeFlags(T, s, done);
            && n in s.nodes && n in now.nodes && now.nodes[n] == s.nodes[n]
            && now.(nodes := now.nodes[n := UpdateCongestion(T, now.nodes[n])]) == SomeFlags(T, s, done + {n})
    ensures forall n :: n in done + {order[i]} <==> n in order[..i + 1]
  {
    hide SomeFlags, UpdateCongestion;
    NextTurn(order, done, i);
    FlagSteps(T, s, done, order[i]);
    FlagThere(T, s, done, order[i]);
  }

  lemma FlagThere(T: Topology, s: Net, done: set<NodeId>, n: NodeId)
    requires n in s.nodes
    ensures n in SomeFlags(T, s, done).nodes
  {
    hide UpdateCongestion;
  }

  // ----- Sending and receiving -----

  lemma PortKnown(T: Topology, h: History, s: Net, q: PortId)
    requires T.Valid() && Inv(T, h, s) && q in s.ports
    ensures q in T.port2node && T.NodeOf(q) == T.port2node[q] && T.NodeOf(q) in s.nodes
    ensures |s.ports[q].sendBuf| == |s.ports[q].recvBuf| == |s.ports[q].reserved| == T.Channels()
  {
    hide FlowsOk, ListsOk, BuffersOk, AllDone, CountersOk, CreditOk, SentOk, NodesOk, EdgesOk, Topology.Valid, QueueOk;
    assert QueuesOk(T, h.sent, q, s.ports[q]);
    PlacesWired(T, h.sent, s);
  }

  lemma WidthKnown(T: Topology, c: nat)
    requires T.Valid() && c < T.Channels()
    ensures 0 < T.widths[c] <= MAX_WIDTH
  {
  }

  lemma CreditKnown(T: Topology, h: History, s: Net, q: PortId, c: nat)
    requires T.Valid() && Inv(T, h, s) && q in s.ports && c < T.Channels() && CanRecv(s, q, c)
    ensures T.config.slots > 0 ==> ReservedAt(s, q, c) > 0
  {
    hide Inv, Topology.Valid, CanRecv;
    TakeInv(T, h, s, q, c);
  }

  /** The bytes `pos .. pos + width` of `data`, zero-padded: what `send` copies into one packet. */
  function Slice(data: seq<byte>, pos: nat, width: nat): seq<byte> {
    var left := if |data| > pos then |data| - pos else 0;
    var copied := if width < left then width else left;
    (if copied > 0 then data[pos..pos + copied] else []) + seq(width - copied, _ => 0 as byte)
  }

  lemma SliceIsChunk(data: seq<byte>, width: nat, i: nat)
    ensures i * width >= 0 && Slice(data, i * width, width) == Chunk(data, width, i)
  {
    MulMonotone(0, i, width);
  }

  /** Neither the position nor the index of a packet overflows its field. */
  lemma PositionFits(T: Topology, c: nat, i: nat)
    requires T.Valid() && c < T.Channels() && i < MAX_PACKETS
    ensures i * T.widths[c] < WORD32
  {
    MulMonotone(i, MAX_PACKETS, T.widths[c]);
    assert MAX_PACKETS * T.widths[c] <= MAX_PACKETS * MAX_WIDTH;
  }

  lemma EnqueueNone(ports: map<PortId, Port>, q: PortId, c: nat)
    requires q in ports && c < |ports[q].sendBuf|
    ensures forall packs: seq<Packet> {:trigger packs[..0]} :: Enqueue(ports, q, c, packs[..0]) == ports
  {
    forall packs: seq<Packet> ensures Enqueue(ports, q, c, packs[..0]) == ports {
      assert ports[q].sendBuf[c] + packs[..0] == ports[q].sendBuf[c];
      assert ports[q].sendBuf[c := ports[q].sendBuf[c]] == ports[q].sendBuf;
    }
  }

  lemma EnqueueOne(ports: map<PortId, Port>, q: PortId, c: nat, packs: seq<Packet>, i: nat)
    requires q in ports && c < |ports[q].sendBuf| && i < |packs|
    ensures Enqueue(Enqueue(ports, q, c, packs[..i]), q, c, [packs[i]]) == Enqueue(ports, q, c, packs[..i + 1])
    ensures q in Enqueue(ports, q, c, packs[..i + 1])
            && |Enqueue(ports, q, c, packs[..i + 1])[q].sendBuf| == |ports[q].sendBuf|
  {
    assert packs[..i + 1] == packs[..i] + [packs[i]];
    var queue := ports[q].sendBuf[c];
    assert queue + packs[..i + 1] == (queue + packs[..i]) + [packs[i]];
    assert ports[q].sendBuf[c := queue + packs[..i]][c := queue + packs[..i + 1]]
        == ports[q].sendBuf[c := queue + packs[..i + 1]];
  }

  lemma StepGood(T: Topology, st: State, op: Op)
    requires T.Valid() && Inv(T, st.hist, st.net) && OpFits(T, st, op)
    ensures Wired(T, st.net) && Inv(T, Step(T, st, op).hist, Step(T, st, op).net)
  {
    hide Inv, Step, Topology.Valid;
    StepKeeps(T, st, op);
  }

  /** What a `send` makes of the state: everything or nothing. */
  lemma SendStep(T: Topology, st: State, op: Op)
    requires T.Valid() && Wired(T, st.net) && op.SendOp?
    ensures var m := MessageOf(st, op);
            if SendOutcome(T, st.net, m) == Success(true)
            then Step(T, st, op) == State(Accept(T, st.net, m), st.hist.(sent := st.hist.sent + [m]))
            else Step(T, st, op) == st
  {
    hide Topology.Valid, Wired, SendOutcome, Accept;
  }

  lemma RefusedStep(T: Topology, st: State, q: PortId, c: nat)
    requires T.Valid() && Wired(T, st.net)
    ensures q !in st.net.ports || c >= T.Channels() || !CanRecv(st.net, q, c) ==> Step(T, st, RecvOp(q, c)) == st
  {
    hide Topology.Valid, Wired;
  }

  lemma RecvStep(T: Topology, st: State, q: PortId, c: nat)
    requires T.Valid() && Wired(T, st.net) && q in st.net.ports && c < T.Channels() && CanRecv(st.net, q, c)
    requires |st.net.ports[q].reserved| == T.Channels() && (T.config.slots > 0 ==> ReservedAt(st.net, q, c) > 0)
    ensures c < |st.net.ports[q].recvBuf|
    ensures var p := st.net.ports[q];
            var buf := p.recvBuf[c];
            var popped := p.(recvBuf := p.recvBuf[c := buf[buf[0].cnt..]]);
            var paid := if T.config.slots != 0 then popped.(reserved := p.reserved[c := p.reserved[c] - 1]) else popped;
            Step(T, st, RecvOp(q, c))
            == State(st.net.(ports := st.net.ports[q := paid]), st.hist.(received := st.hist.received + [buf[0].xmt]))
  {
    hide Topology.Valid, Wired;
  }

  /** One step of the scan for the place of a packet. */
  lemma InsertLater(list: seq<Packet>, pack: Packet, i: nat)
    requires i < |list| && list[i].idx < pack.idx
    ensures list[..i] + InsertByIdx(list[i..], pack) == list[..i + 1] + InsertByIdx(list[i + 1..], pack)
  {
    InsertUnfolds(list[i..], pack);
    hide InsertByIdx;
    assert list[i..][1..] == list[i + 1..];
    assert list[..i + 1] == list[..i] + [list[i]];
  }

  lemma InsertUnfolds(list: seq<Packet>, pack: Packet)
    requires list != [] && list[0].idx < pack.idx
    ensures InsertByIdx(list, pack) == [list[0]] + InsertByIdx(list[1..], pack)
  {
  }

  lemma InsertHere(list: seq<Packet>, pack: Packet, i: nat)
    requires i <= |list| && (i == |list| || list[i].idx >= pack.idx)
    ensures InsertByIdx(list[i..], pack) == [pack] + list[i..]
  {
  }

  lemma TwiceWritten(ports: map<PortId, Port>, q: PortId)
    ensures forall a, b {:trigger ports[q := a][q := b]} :: ports[q := a][q := b] == ports[q := b]
  {
  }

  lemma RecvFits(T: Topology, st: State, q: PortId, c: nat)
    ensures OpFits(T, st, RecvOp(q, c))
  {
  }

  /** What `send` relies on once its checks have passed. */
  lemma SendReady(T: Topology, h: History, s: Net, m: Message)
    requires T.Valid() && Inv(T, h, s) && Wired(T, s) && SendOutcome(T, s, m) == Success(true)
    ensures m.src in s.ports && m.dst in s.ports && m.dst in T.port2node && m.cha < T.Channels()
    ensures T.widths[m.cha] > 0 && PacketCount(|m.data|, T.widths[m.cha]) <= MAX_PACKETS
    ensures |s.ports[m.src].sendBuf| == |s.ports[m.dst].reserved| == T.Channels()
    ensures var ports := if T.config.slots > 0 then Reserve(s.ports, m.dst, m.cha) else s.ports;
            m.src in ports && |ports[m.src].sendBuf| == T.Channels()
  {
    hide Inv, Topology.Valid, PacketCount, Wired, CanSend;
    PortKnown(T, h, s, m.src);
    PortKnown(T, h, s, m.dst);
    WidthKnown(T, m.cha);
  }

  /** Message `x`, accepted for the port and channel and not received before, has been handed out. */
  predicate HandedOut(h: History, h': History, x: nat, q: PortId, c: nat, data: seq<byte>) {
    && x < |h.sent| && x !in h.received && h' == h.(received := h.received + [x])
    && h.sent[x].dst == q && h.sent[x].cha == c && h.sent[x].data == data
  }

  /** What `recv` relies on: a buffer that is not empty starts with a whole message nobody has received. */
  lemma RecvReady(T: Topology, h: History, s: Net, q: PortId, c: nat)
    requires T.Valid() && Inv(T, h, s) && Wired(T, s) && q in s.ports && c < T.Channels()
    ensures var p := s.ports[q];
            && |p.recvBuf| == |p.reserved| == T.Channels() && RecvAt(s, q, c) == p.recvBuf[c]
            && (CanRecv(s, q, c) <==> p.recvBuf[c] != [] && |p.recvBuf[c]| >= p.recvBuf[c][0].cnt)
            && (CanRecv(s, q, c) <==> p.recvBuf[c] != [])
    ensures CanRecv(s, q, c) ==>
              var p, buf := s.ports[q], RecvAt(s, q, c);
              var x, popped := buf[0].xmt, p.(recvBuf := p.recvBuf[c := buf[buf[0].cnt..]]);
              && (T.config.slots > 0 ==> p.reserved[c] > 0) && buf[0].cnt <= |buf|
              && (forall i :: 0 <= i < buf[0].cnt ==> buf[i].idx == i)
              && x < |h.sent| && x !in h.received && h.sent[x].dst == q && h.sent[x].cha == c
              && Resize(Payload(buf[..buf[0].cnt]), buf[0].len) == h.sent[x].data
              && Step(T, State(s, h), RecvOp(q, c)) ==
                 State(s.(ports :=
                       s.ports[q := if T.config.slots != 0 then popped.(reserved := p.reserved[c := p.reserved[c] - 1])
                       else popped]),
                       h.(received := h.received + [x]))
  {
    hide Inv, Topology.Valid, Payload, Wired, Resize, Step;
    PortKnown(T, h, s, q);
    FrontIsMessage(T, h, s, q, c);
    if CanRecv(s, q, c) {
      CreditKnown(T, h, s, q, c);
      RecvStep(T, State(s, h), q, c);
    }
  }
}
