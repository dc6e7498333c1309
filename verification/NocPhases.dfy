/** A tick processed node by node and link by link, in any order, is the synchronous tick. */
module NocPhases {
  import opened RouteTable
  import opened NocState
  import opened NocFlow

  /** The inputs of the links out of `n` replaced by `tx`. */
  function SetInputs(edges: map<Link, Edge>, n: NodeId, tx: map<NodeId, Slots>): map<Link, Edge> {
    map l | l in edges :: if l.0 == n && l.1 in tx then Edge(tx[l.1], edges[l].output) else edges[l]
  }

  /** The outputs of the links into `n` replaced by `rx`. */
  function SetOutputs(edges: map<Link, Edge>, n: NodeId, rx: map<NodeId, Slots>): map<Link, Edge> {
    map l | l in edges :: if l.1 == n && l.0 in rx then Edge(edges[l].input, rx[l.0]) else edges[l]
  }

  function SetPorts(ports: map<PortId, Port>, after: map<PortId, Port>): map<PortId, Port> {
    map p | p in ports :: if p in after then after[p] else ports[p]
  }

  /** The network with everything node `n` can see replaced by `v`. */
  function PutView(s: Net, n: NodeId, v: View): Net {
    s.(nodes := s.nodes[n := v.node], ports := SetPorts(s.ports, v.ports),
    edges := SetInputs(SetOutputs(s.edges, n, v.rx), n, v.tx))
  }

  /** The state when the nodes in `done` have had their part of the tick and the others have not. */
  function SomeNodes(T: Topology, s: Net, done: set<NodeId>): Net {
    Net(map n | n in s.nodes :: if n in done then ProcessNode(T, n, GetView(T, s, n)).node else s.nodes[n],
        map p | p in s.ports :: if T.NodeOf(p) in done then PortAfter(T, s, p) else s.ports[p],
        map l | l in s.edges :: Edge(if l.0 in done then InputAfter(T, s, l) else s.edges[l].input,
                                     if l.1 in done then OutputAfter(T, s, l) else s.edges[l].output),
        s.tick, s.nextXmt)
  }

  lemma NoNodes(T: Topology, s: Net)
    ensures SomeNodes(T, s, {}) == s
  {
    hide PortAfter, InputAfter, OutputAfter, ProcessNode, GetView;
  }

  lemma AllNodes(T: Topology, s: Net, done: set<NodeId>)
    requires Wired(T, s) && done == s.nodes.Keys
    ensures SomeNodes(T, s, done) == NodePhase(T, s)
  {
    hide PortAfter, InputAfter, OutputAfter, ProcessNode, GetView;
    var a, b := SomeNodes(T, s, done), NodePhase(T, s);
    assert a.edges == b.edges by {
      forall l | l in s.edges ensures l.0 in done && l.1 in done {
        assert s.edges[l] == s.edges[l];
      }
    }
    assert a.ports == b.ports by {
      forall p | p in s.ports ensures T.NodeOf(p) in done {
        assert s.ports[p] == s.ports[p];
      }
    }
    assert a.nodes == b.nodes;
  }

  lemma SomeNodesAt(T: Topology, s: Net, done: set<NodeId>)
    ensures var a := SomeNodes(T, s, done);
            && a.nodes.Keys == s.nodes.Keys && a.ports.Keys == s.ports.Keys && a.edges.Keys == s.edges.Keys
            && a.tick == s.tick && a.nextXmt == s.nextXmt
    ensures forall n ::
              n in s.nodes ==>
                SomeNodes(T, s, done).nodes[n] == if n in done then ProcessNode(T, n, GetView(T, s, n)).node
                else s.nodes[n]
    ensures forall p ::
              p in s.ports ==>
                SomeNodes(T, s, done).ports[p] == if T.NodeOf(p) in done then PortAfter(T, s, p) else s.ports[p]
    ensures forall l ::
              l in s.edges ==>
                SomeNodes(T, s, done).edges[l] == Edge(if l.0 in done then InputAfter(T, s, l) else s.edges[l].input,
                                                       if l.1 in done then OutputAfter(T, s, l)
                                                       else s.edges[l].output)
  {
    hide PortAfter, InputAfter, OutputAfter, ProcessNode, GetView;
  }

  /** A view is determined by the records it shows. */
  lemma SameView(T: Topology, a: Net, s: Net, n: NodeId)
    requires n in s.nodes && n in a.nodes && a.nodes.Keys == s.nodes.Keys && a.ports.Keys == s.ports.Keys
             && a.edges.Keys == s.edges.Keys
    requires a.nodes[n] == s.nodes[n]
    requires forall p :: p in s.ports && T.NodeOf(p) == n ==> a.ports[p] == s.ports[p]
    requires forall k :: (k, n) in s.edges ==> a.edges[(k, n)].output == s.edges[(k, n)].output
    requires forall m :: (n, m) in s.edges ==> a.edges[(n, m)].input == s.edges[(n, m)].input
    ensures GetView(T, a, n) == GetView(T, s, n)
  {
    hide GetView;
    SamePorts(T, a, s, n);
    SameLinks(T, a, s, n);
  }

  lemma SamePorts(T: Topology, a: Net, s: Net, n: NodeId)
    requires n in s.nodes && n in a.nodes && a.nodes[n] == s.nodes[n] && a.ports.Keys == s.ports.Keys
    requires forall p :: p in s.ports && T.NodeOf(p) == n ==> a.ports[p] == s.ports[p]
    ensures GetView(T, a, n).ports == GetView(T, s, n).ports && GetView(T, a, n).node == GetView(T, s, n).node
  {
    assert (map p | p in a.ports && T.NodeOf(p) == n :: a.ports[p])
        == (map p | p in s.ports && T.NodeOf(p) == n :: s.ports[p]);
  }

  lemma SameLinks(T: Topology, a: Net, s: Net, n: NodeId)
    requires n in s.nodes && n in a.nodes && a.nodes.Keys == s.nodes.Keys && a.edges.Keys == s.edges.Keys
    requires forall k :: (k, n) in s.edges ==> a.edges[(k, n)].output == s.edges[(k, n)].output
    requires forall m :: (n, m) in s.edges ==> a.edges[(n, m)].input == s.edges[(n, m)].input
    ensures GetView(T, a, n).rx == GetView(T, s, n).rx && GetView(T, a, n).tx == GetView(T, s, n).tx
  {
    var v, w := GetView(T, a, n), GetView(T, s, n);
    assert v.rx == w.rx by {
      assert forall k {:trigger k in s.nodes} :: k in s.nodes ==> ((k, n) in a.edges <==> (k, n) in s.edges);
    }
    assert v.tx == w.tx by {
      assert forall m {:trigger m in s.nodes} :: m in s.nodes ==> ((n, m) in a.edges <==> (n, m) in s.edges);
    }
  }

  /** Locality: a node that has not been processed still sees what it saw at the start of the tick. */
  lemma ViewUntouched(T: Topology, s: Net, done: set<NodeId>, n: NodeId)
    requires n in s.nodes && n !in done
    ensures n in SomeNodes(T, s, done).nodes && GetView(T, SomeNodes(T, s, done), n) == GetView(T, s, n)
  {
    hide SomeNodes, GetView, PortAfter, InputAfter, OutputAfter, ProcessNode;
    SomeNodesAt(T, s, done);
    SameView(T, SomeNodes(T, s, done), s, n);
  }

  /** What one more node writes, record by record. */
  lemma WritesEdge(T: Topology, s: Net, n: NodeId, l: Link)
    requires n in s.nodes && l in s.edges && l.0 in s.nodes && l.1 in s.nodes
    requires SameKeys(ProcessNode(T, n, GetView(T, s, n)), GetView(T, s, n))
    ensures var v := ProcessNode(T, n, GetView(T, s, n));
            && (l.0 == n ==> l.1 in v.tx && v.tx[l.1] == InputAfter(T, s, l))
            && (l.1 == n ==> l.0 in v.rx && v.rx[l.0] == OutputAfter(T, s, l))
  {
    hide ProcessNode, GetView;
    ViewLink(T, s, l);
  }

  lemma WritesPort(T: Topology, s: Net, n: NodeId, p: PortId)
    requires n in s.nodes && p in s.ports
    requires SameKeys(ProcessNode(T, n, GetView(T, s, n)), GetView(T, s, n))
    ensures var v := ProcessNode(T, n, GetView(T, s, n));
            (p in v.ports <==> T.NodeOf(p) == n) && (p in v.ports ==> v.ports[p] == PortAfter(T, s, p))
  {
    hide ProcessNode;
  }

  predicate SameKeys(v: View, w: View) {
    v.rx.Keys == w.rx.Keys && v.tx.Keys == w.tx.Keys && v.ports.Keys == w.ports.Keys
  }

  lemma PutViewAt(s: Net, n: NodeId, v: View)
    ensures var a := PutView(s, n, v);
            && a.nodes == s.nodes[n := v.node] && a.ports.Keys == s.ports.Keys && a.edges.Keys == s.edges.Keys
            && a.tick == s.tick && a.nextXmt == s.nextXmt
    ensures forall p :: p in s.ports ==> PutView(s, n, v).ports[p] == if p in v.ports then v.ports[p] else s.ports[p]
    ensures forall l :: l in s.edges ==> PutView(s, n, v).edges[l] == EdgePut(s.edges[l], l, n, v)
  {
    hide SetInputs, SetOutputs, SetPorts;
    SetOutputsAt(s.edges, n, v.rx);
    SetInputsAt(SetOutputs(s.edges, n, v.rx), n, v.tx);
    SetPortsAt(s.ports, v.ports);
  }

  /** One edge after node `n` has replaced what it sees of it. */
  function EdgePut(e: Edge, l: Link, n: NodeId, v: View): Edge {
    Edge(if l.0 == n && l.1 in v.tx then v.tx[l.1] else e.input,
         if l.1 == n && l.0 in v.rx then v.rx[l.0] else e.output)
  }

  lemma SetInputsAt(edges: map<Link, Edge>, n: NodeId, tx: map<NodeId, Slots>)
    ensures SetInputs(edges, n, tx).Keys == edges.Keys
    ensures forall l ::
              l in edges ==>
                SetInputs(edges, n, tx)[l] == if l.0 == n && l.1 in tx then Edge(tx[l.1], edges[l].output) else edges[l]
  {
  }

  lemma SetOutputsAt(edges: map<Link, Edge>, n: NodeId, rx: map<NodeId, Slots>)
    ensures SetOutputs(edges, n, rx).Keys == edges.Keys
    ensures forall l ::
              l in edges ==>
                SetOutputs(edges, n, rx)[l] == if l.1 == n && l.0 in rx then Edge(edges[l].input, rx[l.0]) else edges[l]
  {
  }

  lemma SetPortsAt(ports: map<PortId, Port>, after: map<PortId, Port>)
    ensures SetPorts(ports, after).Keys == ports.Keys
    ensures forall p :: p in ports ==> SetPorts(ports, after)[p] == if p in after then after[p] else ports[p]
  {
  }

  /** Processing one more node, record by record. */
  lemma OneMoreEdge(T: Topology, s: Net, done: set<NodeId>, n: NodeId, l: Link)
    requires Wired(T, s) && n in s.nodes && n !in done && l in s.edges
    requires SameKeys(ProcessNode(T, n, GetView(T, s, n)), GetView(T, s, n))
    ensures l in SomeNodes(T, s, done).edges && l in SomeNodes(T, s, done + {n}).edges
    ensures EdgePut(SomeNodes(T, s, done).edges[l], l, n, ProcessNode(T, n, GetView(T, s, n)))
         == SomeNodes(T, s, done + {n}).edges[l]
  {
    hide ProcessNode, GetView, SomeNodes, PutView, InputAfter, OutputAfter, PortAfter, SameKeys;
    SomeNodesAt(T, s, done);
    SomeNodesAt(T, s, done + {n});
    assert s.edges[l] == s.edges[l];
    WritesEdge(T, s, n, l);
  }

  lemma OneMorePort(T: Topology, s: Net, done: set<NodeId>, n: NodeId, p: PortId)
    requires n in s.nodes && n !in done && p in s.ports
    requires SameKeys(ProcessNode(T, n, GetView(T, s, n)), GetView(T, s, n))
    ensures p in SomeNodes(T, s, done).ports && p in SomeNodes(T, s, done + {n}).ports
    ensures var after := ProcessNode(T, n, GetView(T, s, n)).ports;
            (if p in after then after[p] else SomeNodes(T, s, done).ports[p]) == SomeNodes(T, s, done + {n}).ports[p]
  {
    hide ProcessNode, GetView, SomeNodes, PutView, InputAfter, OutputAfter, PortAfter, SameKeys;
    SomeNodesAt(T, s, done);
    SomeNodesAt(T, s, done + {n});
    WritesPort(T, s, n, p);
  }

  /** Processing one more node. */
  lemma OneMoreNode(T: Topology, s: Net, done: set<NodeId>, n: NodeId)
    requires Wired(T, s) && n in s.nodes && n !in done
    requires SameKeys(ProcessNode(T, n, GetView(T, s, n)), GetView(T, s, n))
    ensures PutView(SomeNodes(T, s, done), n, ProcessNode(T, n, GetView(T, s, n))) == SomeNodes(T, s, done + {n})
  {
    hide ProcessNode, GetView, SomeNodes, PutView, InputAfter, OutputAfter, PortAfter, SameKeys, EdgePut, Wired;
    var v := ProcessNode(T, n, GetView(T, s, n));
    var a, b := PutView(SomeNodes(T, s, done), n, v), SomeNodes(T, s, done + {n});
    OneMoreRecord(T, s, done, n);
    forall l | l in s.edges ensures l in a.edges && l in b.edges && a.edges[l] == b.edges[l] {
      OneMoreEdge(T, s, done, n, l);
      PutViewAt(SomeNodes(T, s, done), n, v);
    }
    forall p | p in s.ports ensures p in a.ports && p in b.ports && a.ports[p] == b.ports[p] {
      OneMorePort(T, s, done, n, p);
      PutViewAt(SomeNodes(T, s, done), n, v);
    }
    assert a.edges == b.edges;
    assert a.ports == b.ports;
  }

  lemma OneMoreRecord(T: Topology, s: Net, done: set<NodeId>, n: NodeId)
    requires n in s.nodes && n !in done
    ensures var v := ProcessNode(T, n, GetView(T, s, n));
            var a, b := PutView(SomeNodes(T, s, done), n, v), SomeNodes(T, s, done + {n});
            && a.nodes == b.nodes && a.tick == b.tick && a.nextXmt == b.nextXmt
            && a.edges.Keys == b.edges.Keys == s.edges.Keys && a.ports.Keys == b.ports.Keys == s.ports.Keys
  {
    hide ProcessNode, GetView, SomeNodes, PutView, InputAfter, OutputAfter, PortAfter, EdgePut;
    var v := ProcessNode(T, n, GetView(T, s, n));
    SomeNodesAt(T, s, done);
    SomeNodesAt(T, s, done + {n});
    PutViewAt(SomeNodes(T, s, done), n, v);
    assert PutView(SomeNodes(T, s, done), n, v).nodes == SomeNodes(T, s, done + {n}).nodes;
  }

  /** The state when the links in `done` have moved their packets and the others have not. */
  function SomeLinks(T: Topology, s: Net, done: set<Link>): Net {
    s.(edges := map l | l in s.edges :: if l in done then Transfer(T.config.linkWidth, s.edges[l], 0, 0)
                                        else s.edges[l])
  }

  lemma LinkSteps(T: Topology, s: Net, done: set<Link>, l: Link)
    requires l in s.edges && l !in done
    ensures SomeLinks(T, s, {}) == s
    ensures var a := SomeLinks(T, s, done);
            && a.edges[l] == s.edges[l]
            && a.(edges := a.edges[l := Transfer(T.config.linkWidth, s.edges[l], 0, 0)]) == SomeLinks(T, s, done + {l})
  {
    hide Transfer;
    assert SomeLinks(T, s, {}).edges == s.edges;
    var a := SomeLinks(T, s, done);
    assert a.edges[l := Transfer(T.config.linkWidth, s.edges[l], 0, 0)] == SomeLinks(T, s, done + {l}).edges;
  }

  lemma AllLinks(T: Topology, s: Net, done: set<Link>)
    requires done == s.edges.Keys
    ensures SomeLinks(T, s, done) == EdgePhase(T, s) && SomeLinks(T, s, {}) == s
  {
    hide Transfer;
    assert SomeLinks(T, s, {}).edges == s.edges;
    assert SomeLinks(T, s, done).edges == EdgePhase(T, s).edges;
  }

  /** The state when the congestion flags of the nodes in `done` have been refreshed. */
  function SomeFlags(T: Topology, s: Net, done: set<NodeId>): Net {
    s.(nodes := map n | n in s.nodes :: if n in done then UpdateCongestion(T, s.nodes[n]) else s.nodes[n])
  }

  lemma FlagSteps(T: Topology, s: Net, done: set<NodeId>, n: NodeId)
    requires n in s.nodes && n !in done
    ensures var a := SomeFlags(T, s, done);
            && a.nodes[n] == s.nodes[n]
            && a.(nodes := a.nodes[n := UpdateCongestion(T, s.nodes[n])]) == SomeFlags(T, s, done + {n})
  {
    hide UpdateCongestion;
    var a := SomeFlags(T, s, done);
    assert a.nodes[n := UpdateCongestion(T, s.nodes[n])] == SomeFlags(T, s, done + {n}).nodes;
  }

  lemma AllFlags(T: Topology, s: Net, done: set<NodeId>)
    requires done == s.nodes.Keys
    ensures SomeFlags(T, s, done) == Refresh(T, s) && SomeFlags(T, s, {}) == s
  {
    hide UpdateCongestion;
    assert SomeFlags(T, s, {}).nodes == s.nodes;
    assert SomeFlags(T, s, done).nodes == Refresh(T, s).nodes;
  }
}
