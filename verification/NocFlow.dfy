/**
 A tick neither loses, duplicates nor reorders the packets of a flow: all it
 does to the sequence of packets in transit is to take the first one away when
 the destination node admits it.
 */
module NocFlow {
  import opened Arith
  import opened Wrappers
  import opened RouteTable
  import opened NocState
  import opened NocInvariant
  import opened NocNodeStep

  // ----- Node phase: places -----

  lemma ViewIsOk(T: Topology, sent: seq<Message>, s: Net, n: NodeId)
    requires T.Valid() && PlacesOk(T, sent, s) && n in T.nodes
    ensures ViewOk(T, sent, n, GetView(T, s, n))
  {
  }

  lemma NodePhaseNode(T: Topology, sent: seq<Message>, s: Net, n: NodeId)
    requires T.Valid() && PlacesOk(T, sent, s) && n in T.nodes
    ensures NodeOk(T, sent, n, ProcessNode(T, n, GetView(T, s, n)).node)
  {
    hide ProcessNode, GetView, SlotsOk, QueuesOk;
    ViewIsOk(T, sent, s, n);
    StepPipeOk(T, sent, n, GetView(T, s, n));
    ProcessNodePointers(T, n, GetView(T, s, n));
  }

  lemma NodePhaseEdge(T: Topology, sent: seq<Message>, s: Net, l: Link)
    requires T.Valid() && PlacesOk(T, sent, s) && l in s.edges
    ensures var tx := ProcessNode(T, l.0, GetView(T, s, l.0)).tx; l.1 in tx && InputAfter(T, s, l) == tx[l.1]
    ensures var rx := ProcessNode(T, l.1, GetView(T, s, l.1)).rx; l.0 in rx && OutputAfter(T, s, l) == rx[l.0]
    ensures EdgeOk(T, sent, l, Edge(InputAfter(T, s, l), OutputAfter(T, s, l)))
  {
    ViewIsOk(T, sent, s, l.0);
    ViewIsOk(T, sent, s, l.1);
    StepTxOk(T, sent, l.0, GetView(T, s, l.0));
    StepRxOk(T, sent, l.1, GetView(T, s, l.1));
  }

  lemma NodePhasePort(T: Topology, sent: seq<Message>, s: Net, q: PortId)
    requires T.Valid() && PlacesOk(T, sent, s) && q in s.ports
    ensures var ports := ProcessNode(T, T.NodeOf(q), GetView(T, s, T.NodeOf(q))).ports;
            q in ports && PortAfter(T, s, q) == ports[q]
    ensures QueuesOk(T, sent, q, PortAfter(T, s, q))
  {
    var n := T.NodeOf(q);
    ViewIsOk(T, sent, s, n);
    StepPortsOk(T, sent, n, GetView(T, s, n));
  }

  lemma NodePhaseNodes(T: Topology, sent: seq<Message>, s: Net)
    requires T.Valid() && PlacesOk(T, sent, s)
    ensures NodesOk(T, sent, NodePhase(T, s))
  {
    hide ProcessNode, GetView, NodeOk, NodesOk, EdgesOk, PortsOk, Topology.Valid, InputAfter, OutputAfter, PortAfter;
    forall n | n in s.nodes ensures NodeOk(T, sent, n, ProcessNode(T, n, GetView(T, s, n)).node) {
      NodePhaseNode(T, sent, s, n);
    }
    NodesOkIntro(T, sent, NodePhase(T, s));
  }

  lemma NodesOkIntro(T: Topology, sent: seq<Message>, s: Net)
    requires forall n :: n in s.nodes ==> NodeOk(T, sent, n, s.nodes[n])
    ensures NodesOk(T, sent, s)
  {
  }

  lemma NodePhaseEdges(T: Topology, sent: seq<Message>, s: Net)
    requires T.Valid() && PlacesOk(T, sent, s)
    ensures EdgesOk(T, sent, NodePhase(T, s))
  {
    hide ProcessNode, GetView, EdgeOk, NodesOk, PortsOk, Topology.Valid, InputAfter, OutputAfter, PortAfter;
    forall l | l in s.edges ensures EdgeOk(T, sent, l, Edge(InputAfter(T, s, l), OutputAfter(T, s, l))) {
      NodePhaseEdge(T, sent, s, l);
    }
  }

  lemma NodePhasePorts(T: Topology, sent: seq<Message>, s: Net)
    requires T.Valid() && PlacesOk(T, sent, s)
    ensures PortsOk(T, sent, NodePhase(T, s))
  {
    hide ProcessNode, GetView, NodesOk, EdgesOk, QueuesOk, Topology.Valid, InputAfter, OutputAfter, PortAfter;
    forall q | q in s.ports ensures QueuesOk(T, sent, q, PortAfter(T, s, q)) {
      NodePhasePort(T, sent, s, q);
    }
  }

  lemma NodePhasePlaces(T: Topology, sent: seq<Message>, s: Net)
    requires T.Valid() && PlacesOk(T, sent, s)
    ensures PlacesOk(T, sent, NodePhase(T, s))
  {
    hide ProcessNode, GetView, NodesOk, EdgesOk, PortsOk, InputAfter, OutputAfter, PortAfter;
    NodePhaseNodes(T, sent, s);
    NodePhaseEdges(T, sent, s);
    NodePhasePorts(T, sent, s);
  }

  // ----- Node phase: order -----

  lemma PipeInAppends(T: Topology, n: NodeId, v: View, f: Flow)
    requires Entering(T, n, v).Some? && Entering(T, n, v).value.tgt == n ==> FlowOf(Entering(T, n, v).value) != f
    ensures OfPipe(PipeIn(T, n, v), f) == OfPipe(v.node.pipeline, f) + OfSlot(Entering(T, n, v), f)
  {
    hide Entering, OfPipe;
    var p := Entering(T, n, v);
    if p.Some? {
      OfPipeAppend(v.node.pipeline, Piped(p.value, T.config.latency), f);
    }
  }

  lemma EnteringTarget(T: Topology, sent: seq<Message>, n: NodeId, v: View)
    requires T.Valid() && n in T.nodes && ViewOk(T, sent, n, v)
    ensures var p := Entering(T, n, v); p.Some? ==> p.value.tgt == Target(T, FlowOf(p.value))
  {
    hide Entering, OnPath, ViewOk, Topology.Valid;
    EnteringOk(T, sent, n, v);
  }

  /** On its outgoing side a node only gains the packet it admits, behind the others of its flow. */
  lemma OutgoingSide(T: Topology, sent: seq<Message>, n: NodeId, v: View, f: Flow)
    requires T.Valid() && n in T.nodes && ViewOk(T, sent, n, v) && n != Target(T, f)
    ensures var m, r := T.Next(n, Target(T, f)), Release(T, n, PipeIn(T, n, v), v.tx);
            && OfSlot(TxSlot(r.1, m, f.cha), f) + OfPipe(r.0, f)
               == OfSlot(TxSlot(v.tx, m, f.cha), f) + (OfPipe(v.node.pipeline, f) + OfSlot(Entering(T, n, v), f))
  {
    hide Entering, Release, OnPath, Topology.Valid, TxSlot, OfSlot, OfPipe, ViewOk, PipeIn;
    EnteringTarget(T, sent, n, v);
    PipeInAppends(T, n, v, f);
    StepPipeOk(T, sent, n, v);
    PipeTargets(T, sent, n, PipeIn(T, n, v), f);
    ReleaseKeepsOrder(T, n, PipeIn(T, n, v), v.tx, f);
  }

  lemma PipeTargets(T: Topology, sent: seq<Message>, n: NodeId, pipe: seq<Piped>, f: Flow)
    requires PipeOk(T, sent, n, pipe)
    ensures forall i :: 0 <= i < |pipe| && FlowOf(pipe[i].pack) == f ==> pipe[i].pack.tgt == Target(T, f)
  {
    forall i | 0 <= i < |pipe| && FlowOf(pipe[i].pack) == f
      ensures pipe[i].pack.tgt == Target(T, f)
    {
      assert StaysOk(T, sent, n, pipe[i]);
    }
  }

  /** A packet of the flow enters `m` over the one link of the route that leads there, and so leaves its output. */
  lemma IncomingSide(T: Topology, sent: seq<Message>, m: NodeId, v: View, f: Flow, n: NodeId)
    requires T.Valid() && m in T.nodes && n in T.nodes && ViewOk(T, sent, m, v) && FlowOk(T, f) && n in v.rx
             && n != Target(T, f)
    requires OnPath(T, Origin(T, f), n, Target(T, f)) && T.Next(n, Target(T, f)) == m
    ensures OfSlot(Entering(T, m, v), f) + OfSlot(Slot(RxOut(T, m, v)[n], f.cha), f) == OfSlot(Slot(v.rx[n], f.cha), f)
  {
    hide Taken, OnPath, PipeOk, Topology.Valid, SlotsOk, OfSlot, ViewOk, Slot, FlowOk;
    match Taken(T, m, v)
    case NoChoice => NoneOfFlow(None, f);
    case FromLink(k, c) =>
      FromLinkOk(T, sent, m, v, k, c);
      OneWayIn(T, sent, k, m, v.rx[k], c, f, n);
      if k == n {
        TakeFromSlots(v.rx[n], c, f);
      } else {
        NoneOfFlow(v.rx[k][c], f);
      }
    case FromPort(q, c) =>
      FromPortOk(T, sent, m, v, q, c);
      NotItsSource(T, f, n);
      NoneOfFlow(Some(v.ports[q].sendBuf[c][0]), f);
  }

  lemma NoneOfFlow(o: Option<Packet>, f: Flow)
    requires o.Some? ==> FlowOf(o.value) != f
    ensures OfSlot(o, f) == []
  {
  }

  lemma TakeFromSlots(slots: Slots, c: nat, f: Flow)
    requires c < |slots| && slots[c].Some? && slots[c].value.cha == c
    ensures OfSlot(slots[c], f) + OfSlot(Slot(slots[c := None], f.cha), f) == OfSlot(Slot(slots, f.cha), f)
  {
  }

  /** A node behind another one on the route is not where the route starts. */
  lemma NotItsSource(T: Topology, f: Flow, n: NodeId)
    requires T.Valid() && FlowOk(T, f) && n in T.nodes && n != Target(T, f) && OnPath(T, Origin(T, f), n, Target(T, f))
    ensures T.Next(n, Target(T, f)) != Origin(T, f)
  {
    hide OnPath;
    Hop(T, n, Target(T, f));
    OnPathDist(T, Origin(T, f), n, Target(T, f));
  }

  /** Everything a view shows is one of the network's own records. */
  lemma ViewBack(T: Topology, s: Net, n: NodeId)
    requires n in s.nodes
    ensures var v := GetView(T, s, n);
            && v.node == s.nodes[n]
            && (forall k :: k in v.rx ==> (k, n) in s.edges && v.rx[k] == s.edges[(k, n)].output)
            && (forall m :: m in v.tx ==> (n, m) in s.edges && v.tx[m] == s.edges[(n, m)].input)
            && (forall q :: q in v.ports ==> q in s.ports && T.NodeOf(q) == n && v.ports[q] == s.ports[q])
  {
    ViewNode(T, s, n);
    hide GetView;
    var v := GetView(T, s, n);
    forall k | k in v.rx ensures (k, n) in s.edges && v.rx[k] == s.edges[(k, n)].output {
      ViewIncoming(T, s, n, k);
    }
    forall m | m in v.tx ensures (n, m) in s.edges && v.tx[m] == s.edges[(n, m)].input {
      ViewOutgoing(T, s, n, m);
    }
    forall q | q in v.ports ensures q in s.ports && T.NodeOf(q) == n && v.ports[q] == s.ports[q] {
      ViewAttached(T, s, n, q);
    }
  }

  lemma ViewIncoming(T: Topology, s: Net, n: NodeId, k: NodeId)
    requires n in s.nodes && k in GetView(T, s, n).rx
    ensures (k, n) in s.edges && GetView(T, s, n).rx[k] == s.edges[(k, n)].output
  {
  }

  lemma ViewOutgoing(T: Topology, s: Net, n: NodeId, m: NodeId)
    requires n in s.nodes && m in GetView(T, s, n).tx
    ensures (n, m) in s.edges && GetView(T, s, n).tx[m] == s.edges[(n, m)].input
  {
  }

  lemma ViewAttached(T: Topology, s: Net, n: NodeId, q: PortId)
    requires n in s.nodes && q in GetView(T, s, n).ports
    ensures q in s.ports && T.NodeOf(q) == n && GetView(T, s, n).ports[q] == s.ports[q]
  {
  }

  /** A view shows the network's own records. */
  lemma ViewPort(T: Topology, s: Net, q: PortId)
    requires q in s.ports && T.NodeOf(q) in s.nodes
    ensures var v := GetView(T, s, T.NodeOf(q)); q in v.ports && v.ports[q] == s.ports[q]
  {
  }

  lemma ViewLink(T: Topology, s: Net, l: Link)
    requires l in s.edges && l.0 in s.nodes && l.1 in s.nodes
    ensures var v := GetView(T, s, l.0); l.1 in v.tx && v.tx[l.1] == s.edges[l].input
    ensures var v := GetView(T, s, l.1); l.0 in v.rx && v.rx[l.0] == s.edges[l].output
  {
  }

  /** The packets of one flow reach a node over one link only. */
  lemma OneWayIn(T: Topology, sent: seq<Message>, k: NodeId, m: NodeId, slots: Slots, c: nat, f: Flow, n: NodeId)
    requires T.Valid() && SlotsOk(T, sent, k, m, slots) && c < |slots| && slots[c].Some? && k in T.nodes && n in T.nodes
    requires FlowOk(T, f) && n != Target(T, f) && OnPath(T, Origin(T, f), n, Target(T, f))
             && T.Next(n, Target(T, f)) == m
    ensures slots[c].value.cha == c
    ensures FlowOf(slots[c].value) == f ==> k == n
  {
    var p := slots[c].value;
    assert RightPlace(T, sent, k, p);
    if FlowOf(p) == f {
      Hop(T, k, p.tgt);
      Hop(T, n, p.tgt);
      OnPathUnique(T, Origin(T, f), k, n, p.tgt);
    }
  }

  /** No packet of a flow comes back to its source over a link. */
  lemma NothingReturns(T: Topology, sent: seq<Message>, k: NodeId, o: NodeId, slots: Slots, c: nat)
    requires T.Valid() && SlotsOk(T, sent, k, o, slots) && c < |slots| && slots[c].Some? && k in T.nodes
    ensures T.NodeOf(slots[c].value.src) != o
  {
    var p := slots[c].value;
    assert RightPlace(T, sent, k, p);
    if T.NodeOf(p.src) == o {
      Hop(T, k, p.tgt);
      OnPathDist(T, o, k, p.tgt);
      assert false;
    }
  }

  /** At its source a flow only loses the packet its node admits from the send queue. */
  lemma SourceSide(T: Topology, sent: seq<Message>, v: View, f: Flow)
    requires T.Valid() && FlowOk(T, f) && ViewOk(T, sent, Origin(T, f), v)
    ensures f.src in v.ports && f.src in Popped(T, Origin(T, f), v)
    ensures OfSlot(Entering(T, Origin(T, f), v), f) + OfQueue(Queue(Popped(T, Origin(T, f), v)[f.src], f.cha), f)
         == OfQueue(Queue(v.ports[f.src], f.cha), f)
  {
    hide Taken, SlotsOk, QueuesOk, PipeOk, Topology.Valid, OfSlot, OfQueue, Queue;
    var o := Origin(T, f);
    assert f.src in v.ports;
    match Taken(T, o, v)
    case NoChoice => NoneOfFlow(None, f);
    case FromLink(k, c) =>
      FromLinkOk(T, sent, o, v, k, c);
      NothingReturns(T, sent, k, o, v.rx[k], c);
      NoneOfFlow(v.rx[k][c], f);
    case FromPort(q, c) =>
      FromPortOk(T, sent, o, v, q, c);
      if q == f.src {
        TakeFromQueue(v.ports[q], c, f);
      } else {
        NoneOfFlow(Some(v.ports[q].sendBuf[c][0]), f);
      }
  }

  lemma TakeFromQueue(port: Port, c: nat, f: Flow)
    requires c < |port.sendBuf| && port.sendBuf[c] != [] && port.sendBuf[c][0].cha == c
    ensures OfSlot(Some(port.sendBuf[c][0]), f) + OfQueue(Queue(PopSend(port, c), f.cha), f)
         == OfQueue(Queue(port, f.cha), f)
  {
    if c != f.cha {
      NoneOfFlow(Some(port.sendBuf[c][0]), f);
    }
  }

  lemma FromLinkOk(T: Topology, sent: seq<Message>, n: NodeId, v: View, k: NodeId, c: nat)
    requires T.Valid() && ViewOk(T, sent, n, v) && Taken(T, n, v) == FromLink(k, c)
    ensures k in v.rx && k in T.nodes && (k, n) in T.links && c < |v.rx[k]| && v.rx[k][c].Some?
            && SlotsOk(T, sent, k, n, v.rx[k])
    ensures Entering(T, n, v) == v.rx[k][c]
  {
    hide Arbitrate, SlotsOk, QueuesOk, PipeOk;
  }

  lemma FromPortOk(T: Topology, sent: seq<Message>, n: NodeId, v: View, q: PortId, c: nat)
    requires ViewOk(T, sent, n, v) && Taken(T, n, v) == FromPort(q, c)
    ensures q in v.ports && q in T.port2node && T.NodeOf(q) == n && c < |v.ports[q].sendBuf|
            && v.ports[q].sendBuf[c] != []
    ensures QueueOk(T, sent, q, c, v.ports[q].sendBuf[c]) && Entering(T, n, v) == Some(v.ports[q].sendBuf[c][0])
  {
    hide Arbitrate, SlotsOk, QueueOk, PipeOk;
    assert QueuesOk(T, sent, q, v.ports[q]);
  }

  lemma HandedQueues(T: Topology, n: NodeId, v: View, q: PortId, c: nat)
    requires q in Popped(T, n, v)
    ensures q in Handed(T, n, v).0 && Queue(Handed(T, n, v).0[q], c) == Queue(Popped(T, n, v)[q], c)
  {
  }

  /** The packet node `n` admits this tick. */
  function EnteringAt(T: Topology, s: Net, n: NodeId): Option<Packet> {
    if n in s.nodes then Entering(T, n, GetView(T, s, n)) else None
  }

  /** The state after the node phase, as far as flow `f` on the hop out of `n` is concerned. */
  ghost predicate HopStep(T: Topology, s: Net, s': Net, f: Flow, n: NodeId) {
    var m := T.Next(n, Target(T, f));
    var e, e' := EdgeAt(s, (n, m)), EdgeAt(s', (n, m));
    && OfSlot(EnteringAt(T, s, m), f) + OfSlot(Slot(e'.output, f.cha), f) == OfSlot(Slot(e.output, f.cha), f)
    && OfSlot(Slot(e'.input, f.cha), f) + OfPipe(PipeAt(s', n), f)
       == OfSlot(Slot(e.input, f.cha), f) + (OfPipe(PipeAt(s, n), f) + OfSlot(EnteringAt(T, s, n), f))
  }

  lemma NodePhaseHop(T: Topology, sent: seq<Message>, s: Net, f: Flow, n: NodeId)
    requires T.Valid() && PlacesOk(T, sent, s) && FlowOk(T, f) && n in T.nodes && n != Target(T, f)
    requires OnPath(T, Origin(T, f), n, Target(T, f))
    ensures HopStep(T, s, NodePhase(T, s), f, n)
  {
    hide Release, PipeIn, RxOut, Entering, OnPath, NodePhase, SlotsOk, QueuesOk, PipeOk, ViewOk, Slot, OfSlot, OfPipe;
    var m := T.Next(n, Target(T, f));
    Hop(T, n, Target(T, f));
    ViewIsOk(T, sent, s, n);
    ViewIsOk(T, sent, s, m);
    SenderAfter(T, sent, s, n, m);
    ReceiverAfter(T, sent, s, n, m);
    OutgoingSide(T, sent, n, GetView(T, s, n), f);
    IncomingSide(T, sent, m, GetView(T, s, m), f, n);
  }

  /** The sending end of a link after the node phase. */
  lemma ProcessedSender(T: Topology, n: NodeId, v: View)
    ensures ProcessNode(T, n, v).node.pipeline == Release(T, n, PipeIn(T, n, v), v.tx).0
    ensures ProcessNode(T, n, v).tx == Release(T, n, PipeIn(T, n, v), v.tx).1
  {
    hide Release, PipeIn, Handed, Taken, Arbitrate, RxOut, BufferedAfter;
  }

  lemma PhaseAt(T: Topology, s: Net, n: NodeId)
    requires n in s.nodes
    ensures PipeAt(NodePhase(T, s), n) == ProcessNode(T, n, GetView(T, s, n)).node.pipeline
  {
    hide ProcessNode, GetView, PortAfter, InputAfter, OutputAfter;
  }

  lemma PhaseEdgeAt(T: Topology, s: Net, l: Link)
    requires l in s.edges
    ensures EdgeAt(NodePhase(T, s), l) == Edge(InputAfter(T, s, l), OutputAfter(T, s, l))
  {
    hide ProcessNode, GetView, PortAfter, InputAfter, OutputAfter;
  }

  lemma SenderAfter(T: Topology, sent: seq<Message>, s: Net, n: NodeId, m: NodeId)
    requires T.Valid() && PlacesOk(T, sent, s) && (n, m) in s.edges
    ensures n in s.nodes
    ensures var v := GetView(T, s, n);
            var r := Release(T, n, PipeIn(T, n, v), v.tx);
            && PipeAt(NodePhase(T, s), n) == r.0
            && m in r.1 && EdgeAt(NodePhase(T, s), (n, m)).input == r.1[m]
  {
    hide Release, PipeIn, ProcessNode, NodePhase, OutputAfter, InputAfter, EdgeOk, QueuesOk, NodesOk, EdgesOk,
      PortsOk, Topology.Valid, GetView, PipeAt, EdgeAt;
    NodePhaseEdge(T, sent, s, (n, m));
    ProcessedSender(T, n, GetView(T, s, n));
    PhaseAt(T, s, n);
    PhaseEdgeAt(T, s, (n, m));
  }

  /** The receiving end of a link after the node phase. */
  lemma ReceiverAfter(T: Topology, sent: seq<Message>, s: Net, n: NodeId, m: NodeId)
    requires T.Valid() && PlacesOk(T, sent, s) && (n, m) in s.edges
    ensures m in s.nodes
    ensures var v := GetView(T, s, m);
            n in RxOut(T, m, v) && EdgeAt(NodePhase(T, s), (n, m)).output == RxOut(T, m, v)[n]
  {
    hide Release, PipeIn, Handed, Taken, Arbitrate, RxOut, OutputAfter, InputAfter, EdgeOk, QueuesOk, NodesOk, EdgesOk,
      PortsOk, Topology.Valid, GetView;
    NodePhaseEdge(T, sent, s, (n, m));
  }

  lemma NodePhaseSource(T: Topology, sent: seq<Message>, s: Net, f: Flow)
    requires T.Valid() && PlacesOk(T, sent, s) && FlowOk(T, f)
    ensures OfSlot(EnteringAt(T, s, Origin(T, f)), f) + OfQueue(QueueAt(NodePhase(T, s), f.src, f.cha), f)
         == OfQueue(QueueAt(s, f.src, f.cha), f)
  {
    hide Entering, Handed, Popped, ViewOk, GetView, NodePhase, Queue, OfQueue, OfSlot, NodesOk, EdgesOk, PortsOk,
      Topology.WiringValid;
    var o := Origin(T, f);
    SourceNode(T, f);
    ViewPort(T, s, f.src);
    ViewIsOk(T, sent, s, o);
    PortHanded(T, sent, s, f.src);
    SourceSide(T, sent, GetView(T, s, o), f);
    HandedQueues(T, o, GetView(T, s, o), f.src, f.cha);
  }

  lemma SourceNode(T: Topology, f: Flow)
    requires T.Valid() && FlowOk(T, f)
    ensures Origin(T, f) in T.nodes && Target(T, f) in T.nodes
  {
  }

  lemma PortHanded(T: Topology, sent: seq<Message>, s: Net, q: PortId)
    requires T.Valid() && PlacesOk(T, sent, s) && q in s.ports
    ensures T.NodeOf(q) in s.nodes
    ensures var ports := Handed(T, T.NodeOf(q), GetView(T, s, T.NodeOf(q))).0;
            q in ports && q in NodePhase(T, s).ports && NodePhase(T, s).ports[q] == ports[q]
  {
    hide Release, PipeIn, Handed, Taken, Arbitrate, RxOut, SlotsOk, QueuesOk, PipeOk, ViewOk;
    NodePhasePort(T, sent, s, q);
  }

  ghost predicate RouteStep(T: Topology, s: Net, s': Net, f: Flow) {
    forall k :: k in T.nodes && k != Target(T, f) && OnPath(T, Origin(T, f), k, Target(T, f)) ==>
                  HopStep(T, s, s', f, k)
  }

  lemma NodePhaseRoute(T: Topology, sent: seq<Message>, s: Net, f: Flow)
    requires T.Valid() && PlacesOk(T, sent, s) && FlowOk(T, f)
    ensures RouteStep(T, s, NodePhase(T, s), f)
  {
    hide HopStep, OnPath, NodePhase, PlacesOk, Topology.Valid;
    forall k | k in T.nodes && k != Target(T, f) && OnPath(T, Origin(T, f), k, Target(T, f))
      ensures HopStep(T, s, NodePhase(T, s), f, k)
    {
      NodePhaseHop(T, sent, s, f, k);
    }
  }

  /** Everything ahead of node `n` on the route: what enters at `n` joins it, what enters at the target leaves it. */
  lemma {:induction false} AheadNodePhase(T: Topology, s: Net, s': Net, f: Flow, n: NodeId)
    requires T.Valid() && FlowOk(T, f) && n in T.nodes
    requires OnPath(T, Origin(T, f), n, Target(T, f)) && RouteStep(T, s, s', f)
    ensures OfSlot(EnteringAt(T, s, Target(T, f)), f) + Ahead(T, s', f, n)
         == Ahead(T, s, f, n) + OfSlot(EnteringAt(T, s, n), f)
    decreases T.Dist(n, Target(T, f))
  {
    hide EnteringAt, OfSlot, OfPipe, Slot, EdgeAt, PipeAt;
    var t := Target(T, f);
    if n != t {
      var m := T.Next(n, t);
      Hop(T, n, t);
      OnPathNext(T, Origin(T, f), n, t);
      AheadNodePhase(T, s, s', f, m);
      assert HopStep(T, s, s', f, n);
      var e, e' := EdgeAt(s, (n, m)), EdgeAt(s', (n, m));
      assert OfSlot(Slot(e.input, f.cha), f) + (OfPipe(PipeAt(s, n), f) + OfSlot(EnteringAt(T, s, n), f))
          == OfSlot(Slot(e.input, f.cha), f) + OfPipe(PipeAt(s, n), f) + OfSlot(EnteringAt(T, s, n), f);
      Regroup(OfSlot(EnteringAt(T, s, t), f), Ahead(T, s', f, m), Ahead(T, s, f, m), OfSlot(EnteringAt(T, s, m), f),
              OfSlot(Slot(e'.output, f.cha), f), OfSlot(Slot(e'.input, f.cha), f) + OfPipe(PipeAt(s', n), f),
              OfSlot(Slot(e.output, f.cha), f), OfSlot(Slot(e.input, f.cha), f) + OfPipe(PipeAt(s, n), f),
              OfSlot(EnteringAt(T, s, n), f));
    }
  }

  /** Reassociation used by `AheadNodePhase`. */
  lemma Regroup<X>(gone: seq<X>, ahead': seq<X>, ahead: seq<X>, inner: seq<X>, out': seq<X>, rest': seq<X>, out: seq<X>,
                   rest: seq<X>, outer: seq<X>)
    requires gone + ahead' == ahead + inner
    requires inner + out' == out
    requires rest' == rest + outer
    ensures gone + (ahead' + (out' + rest')) == (ahead + (out + rest)) + outer
  {
    assert gone + (ahead' + (out' + rest')) == (gone + ahead') + (out' + rest');
    assert (ahead + inner) + (out' + rest') == ahead + ((inner + out') + rest');
    assert ahead + (out + (rest + outer)) == (ahead + (out + rest)) + outer;
  }

  lemma TransitSplit<X>(gone: seq<X>, ahead': seq<X>, ahead: seq<X>, inner: seq<X>, queue': seq<X>, queue: seq<X>)
    requires gone + ahead' == ahead + inner && inner + queue' == queue
    ensures ahead + queue == gone + (ahead' + queue')
  {
    assert gone + (ahead' + queue') == (gone + ahead') + queue';
    assert (ahead + inner) + queue' == ahead + (inner + queue');
  }

  lemma TransitNodePhase(T: Topology, sent: seq<Message>, s: Net, f: Flow)
    requires T.Valid() && PlacesOk(T, sent, s) && FlowOk(T, f)
    ensures Transit(T, s, f) == OfSlot(EnteringAt(T, s, Target(T, f)), f) + Transit(T, NodePhase(T, s), f)
  {
    hide EnteringAt, OfSlot, NodePhase, PlacesOk, OfQueue, Ahead, RouteStep, OnPath, QueueAt;
    var o, s' := Origin(T, f), NodePhase(T, s);
    NodePhaseRoute(T, sent, s, f);
    OnPathStart(T, o, Target(T, f));
    AheadNodePhase(T, s, s', f, o);
    NodePhaseSource(T, sent, s, f);
    TransitSplit(OfSlot(EnteringAt(T, s, Target(T, f)), f), Ahead(T, s', f, o), Ahead(T, s, f, o),
                 OfSlot(EnteringAt(T, s, o), f),
                 OfQueue(QueueAt(s', f.src, f.cha), f), OfQueue(QueueAt(s, f.src, f.cha), f));
  }

  // ----- Link phase -----

  /** A link moves packets from its inputs to free outputs of the same channel, and does nothing else. */
  ghost predicate Moved(e: Edge, e': Edge) {
    && |e'.input| == |e.input| && |e'.output| == |e.output|
    && forall c {:trigger e.input[c]} {:trigger e'.input[c]} {:trigger e'.output[c]} ::
         0 <= c < |e.input| && c < |e.output| ==>
           || (e'.input[c] == e.input[c] && e'.output[c] == e.output[c])
           || (e.input[c].Some? && e.output[c].None? && e'.input[c].None? && e'.output[c] == e.input[c])
  }

  lemma {:induction false} TransferMoves(linkWidth: nat, e: Edge, c: nat, total: nat)
    ensures Moved(e, Transfer(linkWidth, e, c, total))
    ensures forall i :: 0 <= i < c && i < |e.input| && i < |e.output| ==>
                          Transfer(linkWidth, e, c, total).input[i] == e.input[i]
                          && Transfer(linkWidth, e, c, total).output[i] == e.output[i]
    decreases |e.input| - c
  {
    if c < |e.input| && c < |e.output| && total < linkWidth {
      if e.input[c].Some? && e.output[c].None? {
        var sum := (total + |e.input[c].value.data|) % WORD32;
        if total > 0 && sum > linkWidth {
          TransferMoves(linkWidth, e, c + 1, total);
        } else {
          TransferMoves(linkWidth, Edge(e.input[c := None], e.output[c := e.input[c]]), c + 1, sum);
        }
      } else {
        TransferMoves(linkWidth, e, c + 1, total);
      }
    }
  }

  lemma EdgePhasePlaces(T: Topology, sent: seq<Message>, s: Net)
    requires PlacesOk(T, sent, s)
    ensures PlacesOk(T, sent, EdgePhase(T, s))
  {
    var s' := EdgePhase(T, s);
    hide EdgeOk, NodeOk, QueuesOk, Transfer;
    forall l | l in s'.edges ensures EdgeOk(T, sent, l, s'.edges[l]) {
      TransferMoves(T.config.linkWidth, s.edges[l], 0, 0);
      MovedOk(T, sent, l, s.edges[l], s'.edges[l]);
    }
  }

  lemma MovedOk(T: Topology, sent: seq<Message>, l: Link, e: Edge, e': Edge)
    requires Moved(e, e') && EdgeOk(T, sent, l, e)
    ensures EdgeOk(T, sent, l, e')
  {
    hide RightPlace;
  }

  lemma {:induction false} AheadEdgePhase(T: Topology, sent: seq<Message>, s: Net, f: Flow, n: NodeId)
    requires PlacesOk(T, sent, s) && f.cha < T.Channels()
    ensures Ahead(T, EdgePhase(T, s), f, n) == Ahead(T, s, f, n)
    decreases T.Dist(n, Target(T, f))
  {
    var t, s' := Target(T, f), EdgePhase(T, s);
    if n != t && T.Reaches(n, t) {
      var l := (n, T.Next(n, t));
      Closer(T, n, t);
      AheadEdgePhase(T, sent, s, f, l.1);
      MovedSegment(T, sent, s, l, PipeAt(s, n), f);
    }
  }

  lemma MovedSegment(T: Topology, sent: seq<Message>, s: Net, l: Link, pipe: seq<Piped>, f: Flow)
    requires PlacesOk(T, sent, s) && f.cha < T.Channels()
    ensures Segment(EdgeAt(EdgePhase(T, s), l), pipe, f) == Segment(EdgeAt(s, l), pipe, f)
  {
    hide Segment, Transfer, NodesOk, PortsOk, QueuesOk, NodeOk, RightPlace;
    if l in s.edges {
      TransferMoves(T.config.linkWidth, s.edges[l], 0, 0);
      assert EdgeOk(T, sent, l, s.edges[l]);
      SegmentOfMoved(s.edges[l], EdgePhase(T, s).edges[l], pipe, f);
    }
  }

  lemma SegmentOfMoved(e: Edge, e': Edge, pipe: seq<Piped>, f: Flow)
    requires Moved(e, e') && f.cha < |e.input| == |e.output|
    ensures Segment(e', pipe, f) == Segment(e, pipe, f)
  {
    assert Slot(e.input, f.cha) == e.input[f.cha] && Slot(e'.input, f.cha) == e'.input[f.cha];
  }

  // ----- The whole tick -----

  lemma {:induction false} AheadSame(T: Topology, s: Net, s': Net, f: Flow, n: NodeId)
    requires s'.edges == s.edges
    requires forall k :: PipeAt(s', k) == PipeAt(s, k)
    ensures Ahead(T, s', f, n) == Ahead(T, s, f, n)
    decreases T.Dist(n, Target(T, f))
  {
    var t := Target(T, f);
    if n != t && T.Reaches(n, t) {
      Closer(T, n, t);
      AheadSame(T, s, s', f, T.Next(n, t));
    }
  }

  lemma TickPlaces(T: Topology, sent: seq<Message>, s: Net)
    requires T.Valid() && PlacesOk(T, sent, s)
    ensures PlacesOk(T, sent, Tick(T, s))
  {
    hide PlacesOk, NodePhase, EdgePhase, Refresh;
    NodePhasePlaces(T, sent, s);
    EdgePhasePlaces(T, sent, NodePhase(T, s));
    RefreshPlaces(T, sent, EdgePhase(T, NodePhase(T, s)), s.tick + 1);
  }

  lemma RefreshPlaces(T: Topology, sent: seq<Message>, s: Net, tick: nat)
    requires PlacesOk(T, sent, s)
    ensures PlacesOk(T, sent, Refresh(T, s).(tick := tick))
  {
    hide EdgeOk, QueuesOk, PipeOk;
  }

  lemma RefreshTransit(T: Topology, s: Net, f: Flow, tick: nat)
    ensures Transit(T, Refresh(T, s).(tick := tick), f) == Transit(T, s, f)
  {
    AheadSame(T, s, Refresh(T, s).(tick := tick), f, Origin(T, f));
  }

  lemma EdgePhaseTransit(T: Topology, sent: seq<Message>, s: Net, f: Flow)
    requires PlacesOk(T, sent, s) && FlowOk(T, f)
    ensures Transit(T, EdgePhase(T, s), f) == Transit(T, s, f)
  {
    AheadEdgePhase(T, sent, s, f, Origin(T, f));
  }

  /** One tick takes from a flow in transit exactly the packet its destination node admits. */
  lemma TickTransit(T: Topology, sent: seq<Message>, s: Net, f: Flow)
    requires T.Valid() && PlacesOk(T, sent, s) && FlowOk(T, f)
    ensures Transit(T, s, f) == OfSlot(EnteringAt(T, s, Target(T, f)), f) + Transit(T, Tick(T, s), f)
  {
    hide EnteringAt, NodePhase, PlacesOk, Transit, EdgePhase, Refresh, OfSlot;
    NodePhasePlaces(T, sent, s);
    TransitNodePhase(T, sent, s, f);
    EdgePhaseTransit(T, sent, NodePhase(T, s), f);
    RefreshTransit(T, EdgePhase(T, NodePhase(T, s)), f, s.tick + 1);
  }
}
