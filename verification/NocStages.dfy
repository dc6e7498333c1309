/**
 One node's part of a tick, stage by stage: how writing one record of the bus
 changes what a node sees, and the composition of the stages.
 */
module NocStages {
  import opened Wrappers
  import opened RouteTable
  import opened NocState
  import opened NocNodeStep
  import opened NocPhases

  // ----- Writing one record -----

  lemma OwnEdge(T: Topology, s: Net, n: NodeId, l: Link)
    requires n in s.nodes && l in s.edges
    ensures EdgePut(s.edges[l], l, n, GetView(T, s, n)) == s.edges[l]
  {
  }

  lemma OwnPort(T: Topology, s: Net, n: NodeId, p: PortId)
    requires n in s.nodes && p in s.ports
    ensures p in GetView(T, s, n).ports ==> GetView(T, s, n).ports[p] == s.ports[p]
  {
  }

  lemma PutOwnView(T: Topology, s: Net, n: NodeId)
    requires n in s.nodes
    ensures PutView(s, n, GetView(T, s, n)) == s && SameKeys(GetView(T, s, n), GetView(T, s, n))
    ensures GetView(T, s, n).node == s.nodes[n]
  {
    hide PutView, GetView;
    ViewNode(T, s, n);
    OwnRecords(T, s, n);
    PutFrame(s, n, GetView(T, s, n));
  }

  lemma PutFrame(s: Net, n: NodeId, v: View)
    ensures PutView(s, n, v)
         == Net(s.nodes[n := v.node], PutView(s, n, v).ports, PutView(s, n, v).edges, s.tick, s.nextXmt)
    ensures n in s.nodes && v.node == s.nodes[n] ==> s.nodes[n := v.node] == s.nodes
  {
    hide SetInputs, SetOutputs, SetPorts;
  }

  lemma OwnRecords(T: Topology, s: Net, n: NodeId)
    requires n in s.nodes
    ensures PutView(s, n, GetView(T, s, n)).edges == s.edges && PutView(s, n, GetView(T, s, n)).ports == s.ports
  {
    hide PutView, EdgePut, GetView;
    var a := PutView(s, n, GetView(T, s, n));
    forall l | l in s.edges ensures l in a.edges && a.edges[l] == s.edges[l] {
      PutViewAt(s, n, GetView(T, s, n));
      OwnEdge(T, s, n, l);
    }
    forall p | p in s.ports ensures p in a.ports && a.ports[p] == s.ports[p] {
      PutViewAt(s, n, GetView(T, s, n));
      OwnPort(T, s, n, p);
    }
    assert a.edges.Keys == s.edges.Keys && a.ports.Keys == s.ports.Keys by {
      PutViewAt(s, n, GetView(T, s, n));
    }
  }

  lemma WriteNode(T: Topology, s: Net, n: NodeId, node: Node)
    requires n in s.nodes
    ensures s.(nodes := s.nodes[n := node]) == PutView(s, n, GetView(T, s, n).(node := node))
  {
    hide GetView, SetInputs, SetOutputs, SetPorts;
    PutOwnView(T, s, n);
  }

  lemma WritePort(s0: Net, s: Net, n: NodeId, v: View, q: PortId, port: Port)
    requires n in s0.nodes && s == PutView(s0, n, v) && q in v.ports && q in s0.ports
    ensures q in s.ports && s.ports[q] == v.ports[q]
    ensures s.(ports := s.ports[q := port]) == PutView(s0, n, v.(ports := v.ports[q := port]))
  {
    hide SetInputs, SetOutputs, SetPorts;
    SetPortsAt(s0.ports, v.ports);
    SetPortsAt(s0.ports, v.ports[q := port]);
    assert s.ports[q := port] == SetPorts(s0.ports, v.ports[q := port]);
  }

  lemma WriteInput(s0: Net, s: Net, n: NodeId, v: View, m: NodeId, slots: Slots)
    requires n in s0.nodes && s == PutView(s0, n, v) && m in v.tx && (n, m) in s0.edges
    ensures (n, m) in s.edges && s.edges[(n, m)].input == v.tx[m]
    ensures s.(edges := s.edges[(n, m) := Edge(slots, s.edges[(n, m)].output)])
         == PutView(s0, n, v.(tx := v.tx[m := slots]))
  {
    hide SetInputs, SetOutputs, SetPorts;
    var mid := SetOutputs(s0.edges, n, v.rx);
    SetOutputsAt(s0.edges, n, v.rx);
    SetInputsAt(mid, n, v.tx);
    SetInputsAt(mid, n, v.tx[m := slots]);
    assert s.edges[(n, m) := Edge(slots, s.edges[(n, m)].output)] == SetInputs(mid, n, v.tx[m := slots]);
  }

  lemma WriteOutput(s0: Net, s: Net, n: NodeId, v: View, k: NodeId, slots: Slots)
    requires n in s0.nodes && s == PutView(s0, n, v) && k in v.rx && (k, n) in s0.edges
    ensures (k, n) in s.edges && s.edges[(k, n)].output == v.rx[k]
    ensures s.(edges := s.edges[(k, n) := Edge(s.edges[(k, n)].input, slots)])
         == PutView(s0, n, v.(rx := v.rx[k := slots]))
  {
    hide PutView;
    var w := v.(rx := v.rx[k := slots]);
    PutViewAt(s0, n, v);
    PutViewAt(s0, n, w);
    assert s.edges[(k, n) := Edge(s.edges[(k, n)].input, slots)] == PutView(s0, n, w).edges;
    SamePut(s0, n, v, w);
  }

  lemma SamePut(s: Net, n: NodeId, v: View, w: View)
    requires v.ports == w.ports && v.node == w.node
    ensures PutView(s, n, v).(edges := PutView(s, n, w).edges) == PutView(s, n, w)
  {
    hide SetInputs, SetOutputs, SetPorts;
  }

  lemma ReplaceNode(s0: Net, s: Net, n: NodeId, v: View, node: Node)
    requires n in s0.nodes && s == PutView(s0, n, v)
    ensures n in s.nodes && s.nodes[n] == v.node
    ensures s.(nodes := s.nodes[n := node]) == PutView(s0, n, v.(node := node))
  {
    hide SetInputs, SetOutputs, SetPorts;
  }

  // ----- Composing -----

  /** What a node writes is what it sees afterwards. */
  lemma ViewOfPut(T: Topology, s: Net, n: NodeId, v: View)
    requires n in s.nodes && SameKeys(v, GetView(T, s, n)) && Wired(T, s)
    ensures n in PutView(s, n, v).nodes && GetView(T, PutView(s, n, v), n) == v && Wired(T, PutView(s, n, v))
  {
    hide PutView, GetView, Wired;
    ViewOfPutLinks(T, s, n, v);
    ViewOfPutPorts(T, s, n, v);
    PutWired(T, s, n, v);
  }

  lemma ViewOfPutPorts(T: Topology, s: Net, n: NodeId, v: View)
    requires n in s.nodes && SameKeys(v, GetView(T, s, n))
    ensures n in PutView(s, n, v).nodes && GetView(T, PutView(s, n, v), n).ports == v.ports
  {
    hide PutView, GetView;
    PutViewAt(s, n, v);
    ViewPorts(T, s, n);
    ViewPorts(T, PutView(s, n, v), n);
  }

  lemma ViewPorts(T: Topology, s: Net, n: NodeId)
    requires n in s.nodes
    ensures forall p {:trigger p in GetView(T, s, n).ports} ::
              p in GetView(T, s, n).ports <==> p in s.ports && T.NodeOf(p) == n
    ensures forall p {:trigger GetView(T, s, n).ports[p]} ::
              p in GetView(T, s, n).ports ==> GetView(T, s, n).ports[p] == s.ports[p]
  {
  }

  lemma PutWired(T: Topology, s: Net, n: NodeId, v: View)
    requires n in s.nodes && Wired(T, s)
    ensures Wired(T, PutView(s, n, v))
  {
    hide PutView;
    PutViewAt(s, n, v);
    forall p | p in s.ports ensures T.NodeOf(p) in s.nodes { assert s.ports[p] == s.ports[p]; }
    forall l | l in s.edges ensures l.0 in s.nodes && l.1 in s.nodes { assert s.edges[l] == s.edges[l]; }
  }

  lemma ViewOfPutLinks(T: Topology, s: Net, n: NodeId, v: View)
    requires n in s.nodes && SameKeys(v, GetView(T, s, n))
    ensures n in PutView(s, n, v).nodes
    ensures var w := GetView(T, PutView(s, n, v), n); w.rx == v.rx && w.tx == v.tx && w.node == v.node
  {
    hide PutView, GetView;
    PutViewAt(s, n, v);
    var a := PutView(s, n, v);
    ViewLinks(T, s, n);
    ViewLinks(T, a, n);
    SameLinks(GetView(T, a, n).rx, v.rx);
    SameLinks(GetView(T, a, n).tx, v.tx);
  }

  lemma SameLinks(a: map<NodeId, Slots>, b: map<NodeId, Slots>)
    requires a.Keys == b.Keys && forall k :: k in b ==> a[k] == b[k]
    ensures a == b
  {
  }

  lemma ViewLinks(T: Topology, s: Net, n: NodeId)
    requires n in s.nodes
    ensures GetView(T, s, n).node == s.nodes[n]
    ensures forall k {:trigger k in GetView(T, s, n).rx} ::
              k in GetView(T, s, n).rx <==> k in s.nodes && (k, n) in s.edges
    ensures forall k {:trigger GetView(T, s, n).rx[k]} ::
              k in GetView(T, s, n).rx ==> GetView(T, s, n).rx[k] == s.edges[(k, n)].output
    ensures forall m {:trigger m in GetView(T, s, n).tx} ::
              m in GetView(T, s, n).tx <==> m in s.nodes && (n, m) in s.edges
    ensures forall m {:trigger GetView(T, s, n).tx[m]} ::
              m in GetView(T, s, n).tx ==> GetView(T, s, n).tx[m] == s.edges[(n, m)].input
  {
  }

  lemma PutPut(s: Net, n: NodeId, v: View, w: View)
    requires n in s.nodes && SameKeys(v, w)
    ensures PutView(PutView(s, n, v), n, w) == PutView(s, n, w)
  {
    hide PutView;
    var mid := PutView(s, n, v);
    PutViewAt(s, n, v);
    PutViewAt(s, n, w);
    PutViewAt(mid, n, w);
    var a, b := PutView(mid, n, w), PutView(s, n, w);
    assert a.nodes == b.nodes;
    assert a.ports == b.ports;
    assert a.edges == b.edges;
  }

  // ----- The stages of a node's step -----

  /** After the search for a candidate: only the round-robin pointers have moved. */
  function Found(T: Topology, n: NodeId, v: View): View {
    var a := Arbitrate(T.Rxs(n), T.Attached(n), v);
    v.(node := v.node.(rxPtr := a.rxPtr, sdPtr := a.sdPtr))
  }

  /** After the candidate has been taken from where it was. */
  function Detached(T: Topology, n: NodeId, v: View, cand: Choice): View
    requires Chosen(v, cand).Some?
  {
    match cand
    case FromLink(k, c) => v.(rx := v.rx[k := v.rx[k][c := None]], node :=
    v.node.(rxPtr := Inc(v.node.rxPtr, |T.Rxs(n)|)))
    case FromPort(q, c) => v.(ports := v.ports[q := PopSend(v.ports[q], c)], node :=
    v.node.(sdPtr := Inc(v.node.sdPtr, |T.Attached(n)|)))
  }

  /** After the packet has been delivered to a local port or put at the end of the pipeline. */
  function Admitted(T: Topology, n: NodeId, v: View, p: Packet): View {
    if p.tgt == n then
      var d := Deliver(v.ports, v.node.orderBuf, p);
      v.(ports := d.0, node := v.node.(orderBuf := d.1))
    else
      v.(node := v.node.(pipeline := v.node.pipeline + [Piped(p, T.config.latency)],
      buffered := v.node.buffered + if T.config.congestion.enabled then 1 else 0))
  }

  /** After the pass over the pipeline, when the counter agreed with the pipeline before it. */
  function Released(T: Topology, n: NodeId, v: View): View {
    var r := Release(T, n, v.node.pipeline, v.tx);
    v.(tx := r.1, node :=
    v.node.(pipeline := r.0, buffered := if T.config.congestion.enabled then |r.0| else v.node.buffered))
  }

  function AfterAdmission(T: Topology, n: NodeId, v: View): View {
    var cand := Arbitrate(T.Rxs(n), T.Attached(n), v).choice;
    var p := Chosen(v, cand);
    if p.Some? && Accepts(T, n, v.node.buffered, p.value)
    then Admitted(T, n, Detached(T, n, Found(T, n, v), cand), p.value) else Found(T, n, v)
  }

  predicate CounterExact(T: Topology, node: Node) {
    T.config.congestion.enabled ==> node.buffered == |node.pipeline|
  }

  lemma ArrivedParts(T: Topology, n: NodeId, v: View)
    ensures var w := AfterAdmission(T, n, v);
            && w.rx == RxOut(T, n, v) && w.tx == v.tx && w.ports == Handed(T, n, v).0
            && w.node.orderBuf == Handed(T, n, v).1 && w.node.pipeline == PipeIn(T, n, v)
            && w.node.congested == v.node.congested
            && (CounterExact(T, v.node) ==> CounterExact(T, w.node))
            && (!T.config.congestion.enabled ==> w.node.buffered == v.node.buffered)
  {
    hide Arbitrate, Deliver, Found, Detached, Admitted;
    var cand := Arbitrate(T.Rxs(n), T.Attached(n), v).choice;
    FoundFrame(T, n, v, cand);
    if Taken(T, n, v) == cand && cand != NoChoice {
      var d := Detached(T, n, Found(T, n, v), cand);
      DetachedFrame(T, n, Found(T, n, v), cand);
      AdmittedFrame(T, n, d, Chosen(v, cand).value);
    }
  }

  lemma FoundFrame(T: Topology, n: NodeId, v: View, cand: Choice)
    ensures var w := Found(T, n, v);
            && w.rx == v.rx && w.tx == v.tx && w.ports == v.ports && Chosen(w, cand) == Chosen(v, cand)
            && w.node.pipeline == v.node.pipeline && w.node.orderBuf == v.node.orderBuf
            && w.node.buffered == v.node.buffered && w.node.congested == v.node.congested
  {
    hide Arbitrate;
  }

  lemma DetachedFrame(T: Topology, n: NodeId, v: View, cand: Choice)
    requires Chosen(v, cand).Some?
    ensures var w := Detached(T, n, v, cand);
            && w.tx == v.tx && w.node.pipeline == v.node.pipeline && w.node.orderBuf == v.node.orderBuf
            && w.node.buffered == v.node.buffered && w.node.congested == v.node.congested
            && w.rx == (match cand case FromLink(k, c) => v.rx[k := v.rx[k][c := None]] case _ => v.rx)
            && w.ports == (match cand case FromPort(q, c) => v.ports[q := PopSend(v.ports[q], c)] case _ => v.ports)
  {
  }

  lemma AdmittedFrame(T: Topology, n: NodeId, v: View, p: Packet)
    ensures var w := Admitted(T, n, v, p);
            && w.tx == v.tx && w.rx == v.rx && w.node.congested == v.node.congested
            && w.node.pipeline
               == (if p.tgt == n then v.node.pipeline else v.node.pipeline + [Piped(p, T.config.latency)])
            && (w.ports, w.node.orderBuf)
               == (if p.tgt == n then Deliver(v.ports, v.node.orderBuf, p) else (v.ports, v.node.orderBuf))
            && (CounterExact(T, v.node) ==> CounterExact(T, w.node))
            && (!T.config.congestion.enabled ==> w.node.buffered == v.node.buffered)
  {
    hide Deliver;
  }

  lemma ArrivedPointers(T: Topology, n: NodeId, v: View)
    ensures var w, a, taken := AfterAdmission(T, n, v), Arbitrate(T.Rxs(n), T.Attached(n), v), Taken(T, n, v);
            && w.node.rxPtr == (if taken.FromLink? then Inc(a.rxPtr, |T.Rxs(n)|) else a.rxPtr)
            && w.node.sdPtr == (if taken.FromPort? then Inc(a.sdPtr, |T.Attached(n)|) else a.sdPtr)
  {
    hide Arbitrate, Deliver;
  }

  /** The stages in sequence are the node's part of a tick. */
  lemma StagesCompose(T: Topology, n: NodeId, v: View)
    requires CounterExact(T, v.node)
    ensures var w := Released(T, n, AfterAdmission(T, n, v));
            ProcessNode(T, n, v) == w.(node := UpdateCongestion(T, w.node)) && CounterExact(T, w.node)
  {
    hide AfterAdmission, Arbitrate, Taken, Handed, PipeIn, RxOut, Release, UpdateCongestion;
    ArrivedParts(T, n, v);
    ArrivedPointers(T, n, v);
    ReleaseFills(T, n, PipeIn(T, n, v), v.tx);
    PipeInGrows(T, n, v);
  }

  lemma PipeInGrows(T: Topology, n: NodeId, v: View)
    ensures |v.node.pipeline| <= |PipeIn(T, n, v)|
  {
    hide Entering;
  }

  // ----- The stages keep the containers' keys -----

  lemma DetachedKeys(T: Topology, n: NodeId, v: View, cand: Choice)
    requires Chosen(v, cand).Some?
    ensures SameKeys(Detached(T, n, v, cand), v)
    ensures forall q :: q in v.ports ==> Detached(T, n, v, cand).ports[q].recvBuf == v.ports[q].recvBuf
  {
  }

  lemma AdmittedKeys(T: Topology, n: NodeId, v: View, p: Packet)
    ensures SameKeys(Admitted(T, n, v, p), v)
  {
    DeliverKeys(v.ports, v.node.orderBuf, p);
  }

  lemma ReleasedKeys(T: Topology, n: NodeId, v: View)
    ensures SameKeys(Released(T, n, v), v)
  {
    ReleaseFills(T, n, v.node.pipeline, v.tx);
  }
}
