/** The bus itself: an object whose methods update its nodes, ports and links in place. */
module NocBus {
  import opened Arith
  import opened Wrappers
  import opened RouteTable
  import opened NocState
  import opened NocInvariant
  import opened NocNodeStep
  import opened NocPhases
  import opened NocStages
  import opened NocSystem
  import opened NocTick
  import opened NocRuns
  import opened NocAcceptance
  import opened NocBusFacts

  class SymmetricMultiChannelBus {
    const T: Topology
    var nodes: map<NodeId, Node>
    var ports: map<PortId, Port>
    var edges: map<Link, Edge>
    var tick: nat
    var nextXmt: nat
    ghost var hist: History

    /** The bus as a value. */
    function Snapshot(): Net
      reads this
    {
      Net(nodes, ports, edges, tick, nextXmt)
    }

    ghost predicate Valid()
      reads this
    {
      T.Valid() && Inv(T, hist, Snapshot())
    }

    /** What node `n` can see. */
    function Sees(n: NodeId): View
      requires n in nodes
      reads this
    {
      GetView(T, Snapshot(), n)
    }

    /** All containers are wired up and node `n` sees only packets that belong there. */
    ghost predicate Ready(n: NodeId)
      reads this
    {
      && T.Valid() && Wired(T, Snapshot()) && n in T.nodes && n in nodes
      && ViewOk(T, hist.sent, n, Sees(n)) && CounterExact(T, nodes[n])
    }

    constructor (topology: Topology)
      requires topology.Valid()
      ensures Valid() && T == topology && Snapshot() == EmptyNet(T) && hist == History([], [])
    {
      T := topology;
      nodes := map n | n in topology.nodes :: Node([], map[], 0, 0, 0, false);
      ports := map p | p in topology.port2node ::
        Port(seq(topology.Channels(), _ => []), seq(topology.Channels(), _ => []), seq(topology.Channels(), _ => 0));
      edges := map l | l in topology.links ::
        Edge(seq(topology.Channels(), _ => None), seq(topology.Channels(), _ => None));
      tick, nextXmt, hist := 0, 0, History([], []);
      new;
      hide Inv, Topology.Valid;
      InitialGood(T);
    }

    // ----- A node's part of a tick -----

    /** The next hop towards `dst`; the lookups cannot fail on a checked table. */
    method NextHop(src: NodeId, dst: NodeId) returns (next: NodeId)
      requires T.Valid() && src in T.nodes && dst in T.nodes
      ensures next == T.Next(src, dst) && (src != dst ==> (src, next) in T.links)
    {
      hide Topology.Valid;
      if src == dst {
        return src;
      }
      NextIsThere(T, src, dst);
      assert src in T.route;
      assert dst in T.route[src];
      return T.route[src][dst];
    }

    /** The first occupied output, link by link from the round-robin pointer on, which is left at the link found. */
    method FindOnLinks(n: NodeId) returns (cand: Choice)
      requires Ready(n)
      modifies this`nodes
      ensures var v := old(Sees(n));
              var r := ScanLinks(T.Rxs(n), v.rx, v.node.rxPtr, |T.Rxs(n)|);
              cand == r.1 && nodes == old(nodes)[n := old(nodes)[n].(rxPtr := r.0)]
    {
      hide Topology.Valid, GetView, ViewOk, Wired;
      var froms := T.Rxs(n);
      ghost var v := Sees(n);
      SeenNode(T, hist.sent, Snapshot(), n);
      var i := 0;
      while i < |froms|
        invariant i <= |froms|
        invariant n in nodes && nodes == old(nodes)[n := old(nodes)[n].(rxPtr := nodes[n].rxPtr)]
        invariant PointerOk(nodes[n].rxPtr, |froms|)
        invariant ScanLinks(froms, v.rx, nodes[n].rxPtr, |froms| - i) == ScanLinks(froms, v.rx, v.node.rxPtr, |froms|)
      {
        var k := froms[nodes[n].rxPtr];
        SeenLink(T, hist.sent, old(Snapshot()), n, nodes[n].rxPtr);
        var c := 0;
        while c < T.Channels()
          invariant c <= T.Channels() && FirstFull(edges[(k, n)].output, c) == FirstFull(edges[(k, n)].output, 0)
        {
          if edges[(k, n)].output[c].Some? {
            return FromLink(k, c);
          }
          c := c + 1;
        }
        nodes := nodes[n := nodes[n].(rxPtr := (nodes[n].rxPtr + 1) % |froms|)];
        i := i + 1;
      }
      return NoChoice;
    }

    /** The first waiting packet, port by port from the round-robin pointer on. */
    method FindOnPorts(n: NodeId, ghost v: View) returns (cand: Choice)
      requires T.Valid() && n in nodes && n in T.nodes && ViewOk(T, hist.sent, n, v) && v.node.sdPtr == nodes[n].sdPtr
      requires forall q :: q in v.ports ==> q in ports && ports[q] == v.ports[q]
      modifies this`nodes
      ensures var r := ScanPorts(T.Attached(n), v.ports, v.node.sdPtr, |T.Attached(n)|);
              cand == r.1 && nodes == old(nodes)[n := old(nodes)[n].(sdPtr := r.0)]
    {
      hide Topology.Valid, ViewOk;
      var ids := T.Attached(n);
      SeenPointer(T, hist.sent, n, v);
      var i := 0;
      while i < |ids|
        invariant i <= |ids|
        invariant n in nodes && nodes == old(nodes)[n := old(nodes)[n].(sdPtr := nodes[n].sdPtr)]
        invariant PointerOk(nodes[n].sdPtr, |ids|)
        invariant ScanPorts(ids, v.ports, nodes[n].sdPtr, |ids| - i) == ScanPorts(ids, v.ports, v.node.sdPtr, |ids|)
      {
        var q := ids[nodes[n].sdPtr];
        SeenPort(T, hist.sent, n, v, nodes[n].sdPtr);
        var c := 0;
        while c < T.Channels()
          invariant c <= T.Channels() && FirstQueued(ports[q].sendBuf, c) == FirstQueued(ports[q].sendBuf, 0)
        {
          if ports[q].sendBuf[c] != [] {
            return FromPort(q, c);
          }
          c := c + 1;
        }
        nodes := nodes[n := nodes[n].(sdPtr := (nodes[n].sdPtr + 1) % |ids|)];
        i := i + 1;
      }
      return NoChoice;
    }

    /** Links before ports: the candidate arbitration picks, with both pointers moved to where the search ended. */
    method FindCandidate(n: NodeId) returns (cand: Choice)
      requires Ready(n)
      modifies this`nodes
      ensures cand == Arbitrate(T.Rxs(n), T.Attached(n), old(Sees(n))).choice
      ensures Snapshot() == PutView(old(Snapshot()), n, Found(T, n, old(Sees(n))))
    {
      hide Topology.Valid, GetView, ViewOk, Wired, PutView, ScanLinks, ScanPorts;
      ghost var v := Sees(n);
      SeenNode(T, hist.sent, Snapshot(), n);
      cand := FindOnLinks(n);
      if cand == NoChoice {
        SeenPorts(T, old(Snapshot()), n);
        cand := FindOnPorts(n, v);
      }
      WriteNode(T, old(Snapshot()), n, nodes[n]);
    }

    /** Takes the candidate's packet from where it is; it is still there. */
    method DetachCandidate(n: NodeId, cand: Choice, pack: Packet)
      requires n in nodes && Chosen(Sees(n), cand) == Some(pack)
      requires PointerOk(nodes[n].rxPtr, |T.Rxs(n)|) && PointerOk(nodes[n].sdPtr, |T.Attached(n)|)
      modifies this`nodes, this`ports, this`edges
      ensures Snapshot() == PutView(old(Snapshot()), n, Detached(T, n, old(Sees(n)), cand))
    {
      hide GetView, PutView;
      ghost var s, v := Snapshot(), Sees(n);
      PutOwnView(T, s, n);
      match cand
      case FromLink(k, c) =>
        SeenSlots(T, s, n, k);
        assert edges[(k, n)].output[c] == Some(pack);
        WriteOutput(s, s, n, v, k, v.rx[k][c := None]);
        ReplaceNode(s, s.(edges := s.edges[(k, n) := Edge(s.edges[(k, n)].input, v.rx[k][c := None])]), n,
                    v.(rx := v.rx[k := v.rx[k][c := None]]),
                    v.node.(rxPtr := Inc(v.node.rxPtr, |T.Rxs(n)|)));
        edges := edges[(k, n) := Edge(edges[(k, n)].input, edges[(k, n)].output[c := None])];
        if |T.Rxs(n)| > 0 {
          nodes := nodes[n := nodes[n].(rxPtr := (nodes[n].rxPtr + 1) % |T.Rxs(n)|)];
        } else {
          assert nodes[n := nodes[n].(rxPtr := Inc(v.node.rxPtr, |T.Rxs(n)|))] == nodes;
        }
      case FromPort(q, c) =>
        SeenOwn(T, s, n, q);
        assert ports[q].sendBuf[c] != [] && ports[q].sendBuf[c][0] == pack;
        WritePort(s, s, n, v, q, PopSend(v.ports[q], c));
        ReplaceNode(s, s.(ports := s.ports[q := PopSend(v.ports[q], c)]), n,
                    v.(ports := v.ports[q := PopSend(v.ports[q], c)]),
                    v.node.(sdPtr := Inc(v.node.sdPtr, |T.Attached(n)|)));
        ports := ports[q := ports[q].(sendBuf := ports[q].sendBuf[c := ports[q].sendBuf[c][1..]])];
        if |T.Attached(n)| > 0 {
          nodes := nodes[n := nodes[n].(sdPtr := (nodes[n].sdPtr + 1) % |T.Attached(n)|)];
        } else {
          assert nodes[n := nodes[n].(sdPtr := Inc(v.node.sdPtr, |T.Attached(n)|))] == nodes;
        }
    }

    /** Insertion into a list ordered by packet index. */
    static method Insert(list: seq<Packet>, pack: Packet) returns (l: seq<Packet>)
      ensures l == InsertByIdx(list, pack)
    {
      var i := 0;
      while i < |list| && list[i].idx < pack.idx
        invariant i <= |list|
        invariant InsertByIdx(list, pack) == list[..i] + InsertByIdx(list[i..], pack)
      {
        hide InsertByIdx;
        InsertLater(list, pack, i);
        i := i + 1;
      }
      hide InsertByIdx;
      InsertHere(list, pack, i);
      return list[..i] + ([pack] + list[i..]);
    }

    /**
     Delivery at the destination node: packets are collected in index order, and a complete message moves to its port.
     */
    method DeliverToLocalPort(n: NodeId, pack: Packet)
      requires n in nodes && pack.tgt == n && pack.dst in Sees(n).ports && pack.cha < |Sees(n).ports[pack.dst].recvBuf|
      modifies this`nodes, this`ports
      ensures Snapshot() == PutView(old(Snapshot()), n, Admitted(T, n, old(Sees(n)), pack))
    {
      hide GetView, PutView;
      ghost var s, v := Snapshot(), Sees(n);
      var q, c := pack.dst, pack.cha;
      PutOwnView(T, s, n);
      SeenOwn(T, s, n, q);
      assert q in ports;
      if pack.cnt <= 1 {
        WritePort(s, s, n, v, q, PushRecv(v.ports[q], c, [pack]));
        ports := ports[q := ports[q].(recvBuf := ports[q].recvBuf[c := ports[q].recvBuf[c] + [pack]])];
        assert v.node.(orderBuf := v.node.orderBuf) == v.node;
        return;
      }
      var l := Insert(if pack.xmt in nodes[n].orderBuf then nodes[n].orderBuf[pack.xmt] else [], pack);
      assert l == InsertByIdx(Collected(v.node.orderBuf, pack.xmt), pack);
      if |l| == pack.cnt {
        WritePort(s, s, n, v, q, PushRecv(v.ports[q], c, l));
        ports := ports[q := ports[q].(recvBuf := ports[q].recvBuf[c := ports[q].recvBuf[c] + l])];
        ReplaceNode(s, Snapshot(), n, v.(ports := v.ports[q := PushRecv(v.ports[q], c, l)]),
                    v.node.(orderBuf := v.node.orderBuf - {pack.xmt}));
        nodes := nodes[n := nodes[n].(orderBuf := nodes[n].orderBuf - {pack.xmt})];
      } else {
        ReplaceNode(s, s, n, v, v.node.(orderBuf := v.node.orderBuf[pack.xmt := l]));
        nodes := nodes[n := nodes[n].(orderBuf := nodes[n].orderBuf[pack.xmt := l])];
      }
    }

    /** A packet for this node is delivered; any other joins the end of the pipeline. */
    method AdmitCandidate(n: NodeId, pack: Packet)
      requires n in nodes
      requires pack.tgt == n ==> pack.dst in Sees(n).ports && pack.cha < |Sees(n).ports[pack.dst].recvBuf|
      modifies this`nodes, this`ports
      ensures Snapshot() == PutView(old(Snapshot()), n, Admitted(T, n, old(Sees(n)), pack))
    {
      hide GetView, PutView;
      if pack.tgt == n {
        DeliverToLocalPort(n, pack);
        return;
      }
      ghost var s, v := Snapshot(), Sees(n);
      PutOwnView(T, s, n);
      ReplaceNode(s, s, n, v, Admitted(T, n, v, pack).node);
      nodes := nodes[n := nodes[n].(pipeline := nodes[n].pipeline + [Piped(pack, T.config.latency)])];
      if T.config.congestion.enabled {
        nodes := nodes[n := nodes[n].(buffered := nodes[n].buffered + 1)];
      }
      assert nodes == s.nodes[n := Admitted(T, n, v, pack).node];
    }

    /** The pass over the pipeline has dealt with the packets before `rest`, keeping `kept` of them. */
    ghost predicate Passing(s: Net, v: View, n: NodeId, kept: seq<Piped>, rest: seq<Piped>, tx: map<NodeId, Slots>)
      reads this
    {
      && n in nodes && nodes[n] == v.node.(pipeline := kept + rest, buffered := nodes[n].buffered)
      && Snapshot() == PutView(s, n, v.(tx := tx, node := nodes[n]))
      && PassDone(T, n, v, kept, rest, tx)
      && AllStay(T, hist.sent, n, rest) && TxOk(T, hist.sent, n, tx) && tx.Keys == v.tx.Keys
      && (if T.config.congestion.enabled then nodes[n].buffered == |kept| + |rest|
          else nodes[n].buffered == v.node.buffered)
    }

    /** A packet whose cycles are over moves into the free input of its next link; the counter does not underflow. */
    method MoveToLink(n: NodeId, m: NodeId, rest: seq<Piped>, ghost s: Net, ghost v: View, kept: seq<Piped>,
                      ghost tx: map<NodeId, Slots>)
      requires rest != [] && Passing(s, v, n, kept, rest, tx) && n in s.nodes
      requires m in tx && (n, m) in s.edges && rest[0].pack.cha < |tx[m]|
      requires (n, m) in edges && edges[(n, m)].input == tx[m]
      requires var tx' := tx[m := tx[m][rest[0].pack.cha := Some(rest[0].pack)]];
               PassDone(T, n, v, kept, rest[1..], tx') && TxOk(T, hist.sent, n, tx')
               && AllStay(T, hist.sent, n, rest[1..])
      modifies this`nodes, this`edges
      ensures Passing(s, v, n, kept, rest[1..], tx[m := tx[m][rest[0].pack.cha := Some(rest[0].pack)]])
    {
      hide PutView, AllStay, PassDone, TxOk;
      var p := rest[0].pack;
      ghost var tx' := tx[m := tx[m][p.cha := Some(p)]];
      WriteInput(s, Snapshot(), n, v.(tx := tx, node := nodes[n]), m, tx'[m]);
      edges := edges[(n, m) := Edge(edges[(n, m)].input[p.cha := Some(p)], edges[(n, m)].output)];
      assert Snapshot() == PutView(s, n, v.(tx := tx', node := nodes[n]));
      var node := nodes[n].(pipeline := kept + rest[1..]);
      if T.config.congestion.enabled {
        assert node.buffered > 0;
        node := node.(buffered := node.buffered - 1);
      }
      ReplaceNode(s, Snapshot(), n, v.(tx := tx', node := nodes[n]), node);
      nodes := nodes[n := node];
    }

    /**
     The pass over the pipeline. A packet that has waited its cycles moves to the input of its next link if that
     is free; the link always exists, and the congestion counter never goes below zero.
     */
    method ReleasePipeline(n: NodeId)
      requires T.Valid() && n in T.nodes && n in nodes
      requires AllStay(T, hist.sent, n, nodes[n].pipeline) && TxOk(T, hist.sent, n, Sees(n).tx)
               && CounterExact(T, nodes[n])
      requires forall m :: m in Sees(n).tx <==> (n, m) in T.links
      modifies this`nodes, this`edges
      ensures Snapshot() == PutView(old(Snapshot()), n, Released(T, n, old(Sees(n))))
    {
      hide Topology.Valid, GetView, PutView, SlotsOk, StaysOk, AllStay, PassDone, TxOk, Lookup;
      ghost var s, v := Snapshot(), Sees(n);
      PutOwnView(T, s, n);
      ghost var tx := v.tx;
      var kept: seq<Piped> := [];
      var rest := nodes[n].pipeline;
      assert [] + rest == rest;
      PassStarts(T, n, v);
      while rest != []
        invariant Passing(s, v, n, kept, rest, tx)
        decreases |rest|
      {
        var e := rest[0];
        PassHead(T, hist.sent, n, v, kept, rest, tx);
        if e.remain > 0 {
          kept, rest := kept + [e.(remain := e.remain - 1)], rest[1..];
          ReplaceNode(s, Snapshot(), n, v.(tx := tx, node := nodes[n]), nodes[n].(pipeline := kept + rest));
          nodes := nodes[n := nodes[n].(pipeline := kept + rest)];
          continue;
        }
        var m := NextHop(n, e.pack.tgt);
        SeenInput(T, s, n, m);
        WriteInput(s, Snapshot(), n, v.(tx := tx, node := nodes[n]), m, []);
        assert (n, m) in edges;
        if edges[(n, m)].input[e.pack.cha].None? {
          MoveToLink(n, m, rest, s, v, kept, tx);
          tx := tx[m := tx[m][e.pack.cha := Some(e.pack)]];
        } else {
          assert kept + rest == (kept + [e]) + rest[1..];
          kept := kept + [e];
        }
        rest := rest[1..];
      }
      assert kept + rest == kept;
      PassEnds(T, n, v, kept, tx);
    }

    method UpdateCongestionState(n: NodeId)
      requires n in nodes
      modifies this`nodes
      ensures nodes == old(nodes)[n := UpdateCongestion(T, old(nodes[n]))]
    {
      var congestion := T.config.congestion;
      if !congestion.enabled {
        nodes := nodes[n := nodes[n].(congested := false)];
        return;
      }
      if !nodes[n].congested && nodes[n].buffered >= congestion.high {
        nodes := nodes[n := nodes[n].(congested := true)];
      } else if nodes[n].congested && nodes[n].buffered <= congestion.low {
        nodes := nodes[n := nodes[n].(congested := false)];
      }
      assert nodes == old(nodes)[n := nodes[n]];
    }

    /** Node `n`'s whole part of a tick changes exactly what the node sees, as `ProcessNode` says. */
    method ProcessOneNode(n: NodeId)
      requires Ready(n)
      modifies this`nodes, this`ports, this`edges
      ensures Snapshot() == PutView(old(Snapshot()), n, ProcessNode(T, n, old(Sees(n))))
      ensures SameKeys(ProcessNode(T, n, old(Sees(n))), old(Sees(n)))
    {
      hide Topology.Valid, GetView, ViewOk, PutView, Wired, ProcessNode, Arbitrate, Found, Detached, Admitted, Released,
        Chosen, UpdateCongestion;
      ghost var s, v := Snapshot(), Sees(n);
      SeenNode(T, hist.sent, s, n);
      StagesCompose(T, n, v);
      FoundReady(T, hist.sent, n, v);
      DetachedReady(T, hist.sent, n, v);
      ReleaseReady(T, hist.sent, n, v);
      var cand := FindCandidate(n);
      ghost var w := Found(T, n, v);
      StageSeen(T, s, Snapshot(), n, v, w);
      var pack := Chosen(Sees(n), cand);
      if pack.Some? && Accepts(T, n, nodes[n].buffered, pack.value) {
        DetachCandidate(n, cand, pack.value);
        StageSeen(T, s, Snapshot(), n, w, Detached(T, n, w, cand));
        w := Detached(T, n, w, cand);
        AdmitCandidate(n, pack.value);
        StageSeen(T, s, Snapshot(), n, w, Admitted(T, n, w, pack.value));
        w := Admitted(T, n, w, pack.value);
      }
      assert w == AfterAdmission(T, n, v);
      ReleasePipeline(n);
      StageSeen(T, s, Snapshot(), n, w, Released(T, n, w));
      w := Released(T, n, w);
      ReplaceNode(s, Snapshot(), n, w, UpdateCongestion(T, w.node));
      UpdateCongestionState(n);
    }

    // ----- A whole tick -----

    /** Channel by channel, while the link still has bytes to spend in this tick. */
    method ProcessEdge(l: Link)
      requires l in edges && |edges[l].input| == |edges[l].output| == T.Channels()
      modifies this`edges
      ensures edges == old(edges)[l := Transfer(T.config.linkWidth, old(edges)[l], 0, 0)]
    {
      var total: nat := 0;
      var c := 0;
      while c < T.Channels() && total < T.config.linkWidth
        invariant c <= T.Channels() && l in edges && edges == old(edges)[l := edges[l]]
        invariant |edges[l].input| == |edges[l].output| == T.Channels()
        invariant Transfer(T.config.linkWidth, edges[l], c, total) == Transfer(T.config.linkWidth, old(edges)[l], 0, 0)
      {
        if edges[l].input[c].Some? && edges[l].output[c].None? {
          var sum := (total + |edges[l].input[c].value.data|) % WORD32;
          if total > 0 && sum > T.config.linkWidth {
            c := c + 1;
            continue;
          }
          edges := edges[l := Edge(edges[l].input[c := None], edges[l].output[c := edges[l].input[c]])];
          total := sum;
        }
        c := c + 1;
      }
    }

    /** The node loop of a tick, in any order: every node acts on what it saw at the start of the tick. */
    method ProcessAllNodes(order: seq<NodeId>)
      requires Valid() && Distinct(order) && (forall n :: n in order <==> n in T.nodes)
      modifies this`nodes, this`ports, this`edges
      ensures Snapshot() == NodePhase(T, old(Snapshot()))
    {
      hide Topology.Valid, Inv, GetView, SomeNodes, PutView, NodePhase, ProcessNode, Wired;
      ghost var s := Snapshot();
      InvPlaces(T, hist, s);
      WiredPhases(T, s);
      NoNodes(T, s);
      ghost var done := {};
      for i := 0 to |order|
        invariant Snapshot() == SomeNodes(T, s, done)
        invariant forall n :: n in done <==> n in order[..i]
      {
        NodeTurn(T, hist, s, done, order, i);
        ProcessOneNode(order[i]);
        done := done + {order[i]};
      }
      AllTurns(order, T.nodes, done);
      AllNodes(T, s, done);
    }

    /** The link loop of a tick, in any order, on what the nodes have left. */
    method ProcessAllEdges(order: seq<Link>, ghost s: Net)
      requires T.Valid() && PlacesOk(T, hist.sent, s) && Snapshot() == NodePhase(T, s)
      requires Distinct(order) && (forall l :: l in order <==> l in T.links)
      modifies this`edges
      ensures Snapshot() == EdgePhase(T, NodePhase(T, s))
    {
      hide Topology.Valid, SomeLinks, NodePhase, EdgePhase, Wired, PlacesOk;
      ghost var s1 := Snapshot();
      PlacesWired(T, hist.sent, s);
      WiredPhases(T, s);
      ghost var done := {};
      AllLinks(T, s1, s1.edges.Keys);
      for i := 0 to |order|
        invariant Snapshot() == SomeLinks(T, s1, done)
        invariant forall l :: l in done <==> l in order[..i]
      {
        LinkTurn(T, hist.sent, s, s1, done, order, i);
        ProcessEdge(order[i]);
        done := done + {order[i]};
      }
      AllTurns(order, T.links, done);
      AllLinks(T, s1, done);
    }

    method RefreshAllCongestionStates(order: seq<NodeId>)
      requires nodes.Keys == T.nodes && Distinct(order) && (forall n :: n in order <==> n in T.nodes)
      modifies this`nodes
      ensures Snapshot() == Refresh(T, old(Snapshot()))
    {
      hide SomeFlags, Refresh;
      ghost var s := Snapshot();
      ghost var done := {};
      AllFlags(T, s, s.nodes.Keys);
      for i := 0 to |order|
        invariant Snapshot() == SomeFlags(T, s, done)
        invariant forall n :: n in done <==> n in order[..i]
      {
        FlagTurn(T, s, done, order, i);
        UpdateCongestionState(order[i]);
        done := done + {order[i]};
      }
      AllTurns(order, T.nodes, done);
      AllFlags(T, s, done);
    }

    /**
     One tick. Whatever order the containers are visited in, the result is the synchronous tick, in which every
     node acts on the state at the start of the tick and every link on what the nodes have left.
     */
    method ApplyNextTick(nodeOrder: seq<NodeId>, linkOrder: seq<Link>)
      requires Valid()
      requires Distinct(nodeOrder) && (forall n :: n in nodeOrder <==> n in T.nodes)
      requires Distinct(linkOrder) && (forall l :: l in linkOrder <==> l in T.links)
      modifies this`nodes, this`ports, this`edges, this`tick
      ensures Valid() && hist == old(hist) && Snapshot() == Tick(T, old(Snapshot()))
      ensures Wired(T, old(Snapshot())) && Now() == Step(T, old(Now()), TickOp)
    {
      hide Topology.Valid, Inv, Tick, NodePhase, EdgePhase, Refresh, Wired, PlacesOk;
      ghost var s := Snapshot();
      InvPlaces(T, hist, s);
      WiredPhases(T, s);
      ProcessAllNodes(nodeOrder);
      ProcessAllEdges(linkOrder, s);
      RefreshAllCongestionStates(nodeOrder);
      tick := tick + 1;
      TickIsPhases(T, s);
      TickInv(T, hist, s);
    }

    // ----- Sending and receiving -----

    /** The bus and its history, as a state of the runs of `NocRuns`. */
    ghost function Now(): State
      reads this
    {
      State(Snapshot(), hist)
    }

    method CanSendOn(port: PortId, channel: nat) returns (r: Result<bool, NocError>)
      requires Valid()
      ensures port in ports ==> T.NodeOf(port) in nodes
      ensures r == if port !in ports then Failure(UnknownPort(port))
                   else if channel >= |T.widths| then Failure(UnknownChannel(channel))
                   else Success(SourceFree(T, Snapshot(), port, channel))
    {
      hide Topology.Valid, Inv, Wired;
      PortAnswers(T, hist, Snapshot(), port, channel);
      if port !in ports {
        return Failure(UnknownPort(port));
      }
      PortKnown(T, hist, Snapshot(), port);
      if channel >= T.Channels() {
        return Failure(UnknownChannel(channel));
      }
      if ports[port].sendBuf[channel] != [] {
        return Success(false);
      }
      if T.config.congestion.enabled {
        var node := nodes[T.port2node[port]];
        if node.congested || node.buffered >= T.config.congestion.limit {
          return Success(false);
        }
      }
      return Success(true);
    }

    /** One more packet at the end of a send queue. */
    method PushSend(port: PortId, channel: nat, pack: Packet)
      requires port in ports && channel < |ports[port].sendBuf|
      modifies this`ports
      ensures ports == Enqueue(old(ports), port, channel, [pack])
    {
      ports := ports[port :=
      ports[port].(sendBuf := ports[port].sendBuf[channel := ports[port].sendBuf[channel] + [pack]])];
    }

    /** The packets of one message, cut from its bytes and padded, put one by one into the send queue. */
    method QueuePackets(port: PortId, dst: PortId, channel: nat, data: seq<byte>, xmt: nat, cnt: nat)
      requires T.Valid() && port in ports && dst in T.port2node && channel < T.Channels()
               && |ports[port].sendBuf| == T.Channels()
      requires T.widths[channel] > 0 && cnt == PacketCount(|data|, T.widths[channel]) <= MAX_PACKETS
      modifies this`ports
      ensures ports == Enqueue(old(ports), port, channel, Packetize(T, Message(port, dst, channel, data, tick), xmt))
    {
      hide Topology.Valid, PacketCount, Enqueue, Chunk;
      var width := T.widths[channel];
      ghost var packs := Packetize(T, Message(port, dst, channel, data, tick), xmt);
      var pos: nat := 0;
      var i: nat := 0;
      EnqueueNone(ports, port, channel);
      while i < cnt
        invariant i <= cnt && pos == i * width && port in ports && |ports[port].sendBuf| == T.Channels()
        invariant ports == Enqueue(old(ports), port, channel, packs[..i])
      {
        PositionFits(T, channel, i);
        assert pos < WORD32;
        var bytes := Slice(data, pos, width);
        var pack := Packet(port, dst, T.port2node[dst], channel, xmt, |data| % WORD32, i, cnt, tick, bytes);
        SliceIsChunk(data, width, i);
        assert pack == packs[i];
        EnqueueOne(old(ports), port, channel, packs, i);
        PushSend(port, channel, pack);
        pos := pos + width;
        i := i + 1;
      }
      assert packs[..i] == packs;
    }

    /** With bounded reception, one more message is on its way to the port and channel. */
    method ReserveSlot(port: PortId, channel: nat)
      requires port in ports && channel < |ports[port].reserved|
      modifies this`ports
      ensures ports == if T.config.slots > 0 then Reserve(old(ports), port, channel) else old(ports)
    {
      if T.config.slots != 0 {
        ports := ports[port :=
        ports[port].(reserved := ports[port].reserved[channel := ports[port].reserved[channel] + 1])];
      }
    }

    /** With bounded reception, a received message gives its slot back; the count does not underflow. */
    method ReturnSlot(port: PortId, channel: nat)
      requires port in ports && channel < |ports[port].reserved|
               && (T.config.slots > 0 ==> ports[port].reserved[channel] > 0)
      modifies this`ports
      ensures var p := old(ports)[port];
              ports == old(ports)[port := if T.config.slots != 0
              then p.(reserved := p.reserved[channel := p.reserved[channel] - 1]) else p]
    {
      if T.config.slots != 0 {
        assert ports[port].reserved[channel] > 0;
        ports := ports[port :=
        ports[port].(reserved := ports[port].reserved[channel := ports[port].reserved[channel] - 1])];
      }
    }

    /** All that `send` checks before it changes anything. */
    method CheckSend(port: PortId, dst: PortId, channel: nat, data: seq<byte>) returns (r: Result<bool, NocError>)
      requires Valid()
      ensures Wired(T, Snapshot()) && r == SendOutcome(T, Snapshot(), Message(port, dst, channel, data, tick))
      ensures Answers(T, hist, Snapshot(), Message(port, dst, channel, data, tick), r)
    {
      hide Topology.Valid, Inv, Wired, PacketCount, CanSend, Answers, SourceFree;
      InvPlaces(T, hist, Snapshot());
      SendAnswers(T, hist, Snapshot(), Message(port, dst, channel, data, tick));
      PortAnswers(T, hist, Snapshot(), port, channel);
      if port !in ports {
        return Failure(UnknownPort(port));
      }
      if dst !in ports {
        return Failure(UnknownPort(dst));
      }
      if channel >= T.Channels() {
        return Failure(UnknownChannel(channel));
      }
      var open := CanSendOn(port, channel);
      if open.Success? && !open.value {
        return Success(false);
      }
      PortKnown(T, hist, Snapshot(), dst);
      if T.config.slots != 0 {
        if |data| > T.config.maxBytes {
          return Failure(MessageTooLong);
        }
        if ports[dst].reserved[channel] >= T.config.slots {
          return Success(false);
        }
      }
      WidthKnown(T, channel);
      if PacketCount(|data|, T.widths[channel]) > MAX_PACKETS {
        return Failure(TooManyPackets);
      }
      return Success(true);
    }

    /**
     Splits `data` into packets for `dst`, or refuses: for good (a failure) or until the caller retries. A message
     whose length does not wrap around 32 bits leaves the bus consistent, with the message recorded as sent.
     */
    method Send(port: PortId, dst: PortId, channel: nat, data: seq<byte>) returns (r: Result<bool, NocError>)
      requires Valid()
      modifies this`ports, this`nextXmt, this`hist
      ensures T.Valid() && Wired(T, old(Snapshot()))
      ensures r == SendOutcome(T, old(Snapshot()), Message(port, dst, channel, data, tick))
      ensures Answers(T, old(hist), old(Snapshot()), Message(port, dst, channel, data, tick), r)
      ensures Now() == Step(T, old(Now()), SendOp(port, dst, channel, data))
      ensures OpFits(T, old(Now()), SendOp(port, dst, channel, data)) ==> Valid()
    {
      hide Topology.Valid, Inv, Wired, Good, PacketCount, Enqueue, Packetize, CanSend, AlignUp, MakePacket, Step,
        OpFits, SendOutcome, Answers;
      ghost var st, op := Now(), SendOp(port, dst, channel, data);
      r := CheckSend(port, dst, channel, data);
      SendStep(T, st, op);
      if r != Success(true) {
        return;
      }
      SendReady(T, hist, Snapshot(), MessageOf(st, op));
      ReserveSlot(dst, channel);
      var xmt := nextXmt;
      nextXmt := nextXmt + 1;
      QueuePackets(port, dst, channel, data, xmt, PacketCount(|data|, T.widths[channel]));
      hist := hist.(sent := hist.sent + [Message(port, dst, channel, data, tick)]);
      if OpFits(T, st, op) {
        StepGood(T, st, op);
      }
    }

    /**
     Takes the message at the front of a receive buffer apart, packet by packet, and hands out its bytes: exactly
     those of a message sent to this port and channel that nobody has received before. The packets are in order
     and the credit to give back is there.
     */
    method Recv(port: PortId, channel: nat) returns (r: Result<Option<seq<byte>>, NocError>)
      requires Valid()
      modifies this`ports, this`hist
      ensures Valid() && Wired(T, old(Snapshot())) && Now() == Step(T, old(Now()), RecvOp(port, channel))
      ensures port !in old(ports) ==> r == Failure(UnknownPort(port))
      ensures port in old(ports) && channel >= T.Channels() ==> r == Failure(UnknownChannel(channel))
      ensures port in old(ports) && channel < T.Channels() ==>
                r.Success? && (r.value.Some? <==> RecvAt(old(Snapshot()), port, channel) != [])
      ensures r.Success? && r.value.Some? ==>
                RecvAt(old(Snapshot()), port, channel) != [] &&
                HandedOut(old(hist), hist, RecvAt(old(Snapshot()), port, channel)[0].xmt, port, channel, r.value.value)
    {
      hide Topology.Valid, Inv, Wired, Good, Step, RecvAt, CanRecv, HandedOut, OpFits;
      InvPlaces(T, hist, Snapshot());
      RefusedStep(T, Now(), port, channel);
      if port !in ports {
        return Failure(UnknownPort(port));
      }
      if channel >= T.Channels() {
        return Failure(UnknownChannel(channel));
      }
      var message := TakeMessage(port, channel);
      return Success(message);
    }

    /** Hands out the message at the front of the receive buffer, if its packets are complete. */
    method TakeMessage(port: PortId, channel: nat) returns (r: Option<seq<byte>>)
      requires Valid() && port in ports && channel < T.Channels()
      modifies this`ports, this`hist
      ensures Valid() && Wired(T, old(Snapshot())) && Now() == Step(T, old(Now()), RecvOp(port, channel))
      ensures r.Some? <==> RecvAt(old(Snapshot()), port, channel) != []
      ensures r.Some? ==>
                RecvAt(old(Snapshot()), port, channel) != [] &&
                HandedOut(old(hist), hist, RecvAt(old(Snapshot()), port, channel)[0].xmt, port, channel, r.value)
    {
      hide Topology.Valid, Inv, Wired, Good, Payload, Step, RecvAt, CanRecv, Resize, OpFits;
      ghost var s, h := Snapshot(), hist;
      InvPlaces(T, h, s);
      RecvFits(T, State(s, h), port, channel);
      StepGood(T, State(s, h), RecvOp(port, channel));
      RefusedStep(T, State(s, h), port, channel);
      RecvReady(T, h, s, port, channel);
      var buf := ports[port].recvBuf[channel];
      if buf == [] || |buf| < buf[0].cnt {
        return None;
      }
      var out := PopMessage(port, channel, buf[0].cnt);
      ReturnSlot(port, channel);
      TwiceWritten(s.ports, port);
      hist := hist.(received := hist.received + [buf[0].xmt]);
      return Some(Resize(out, buf[0].len));
    }

    /** Pops `cnt` packets, checking their indices, and joins their bytes. */
    method PopMessage(port: PortId, channel: nat, cnt: nat) returns (out: seq<byte>)
      requires port in ports && channel < |ports[port].recvBuf| && cnt <= |ports[port].recvBuf[channel]|
      requires forall i :: 0 <= i < cnt ==> ports[port].recvBuf[channel][i].idx == i
      modifies this`ports
      ensures var p := old(ports)[port];
              && out == Payload(p.recvBuf[channel][..cnt])
              && ports == old(ports)[port := p.(recvBuf := p.recvBuf[channel := p.recvBuf[channel][cnt..]])]
    {
      ghost var p := ports[port];
      ghost var buf := p.recvBuf[channel];
      out := [];
      var i := 0;
      assert p.recvBuf[channel := buf[0..]] == p.recvBuf;
      assert ports == old(ports)[port := p.(recvBuf := p.recvBuf[channel := buf[0..]])];
      while i < cnt
        invariant i <= cnt && port in ports
        invariant ports == old(ports)[port := p.(recvBuf := p.recvBuf[channel := buf[i..]])]
        invariant out == Payload(buf[..i])
      {
        var pack := ports[port].recvBuf[channel][0];
        assert pack == buf[i] && pack.idx == i;
        out := out + pack.data;
        assert buf[..i + 1][..i] == buf[..i];
        assert buf[i..][1..] == buf[i + 1..];
        assert p.recvBuf[channel := buf[i..]][channel := buf[i + 1..]] == p.recvBuf[channel := buf[i + 1..]];
        ports := ports[port :=
        ports[port].(recvBuf := ports[port].recvBuf[channel := ports[port].recvBuf[channel][1..]])];
        i := i + 1;
      }
    }
  }
}
