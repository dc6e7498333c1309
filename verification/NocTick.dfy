/** A tick preserves the invariant of the bus. */
module NocTick {
  import opened Wrappers
  import opened RouteTable
  import opened NocState
  import opened NocInvariant
  import opened NocNodeStep
  import opened NocFlow
  import opened NocHistory
  import opened NocReassembly
  import opened NocSystem

  // ----- What a tick does at one node -----

  lemma TickNodeIs(T: Topology, s: Net, n: NodeId)
    requires n in s.nodes
    ensures n in Tick(T, s).nodes && Tick(T, s).nodes[n]
                                     == UpdateCongestion(T, ProcessNode(T, n, GetView(T, s, n)).node)
  {
    hide ProcessNode, GetView, UpdateCongestion, PortAfter, InputAfter, OutputAfter, Transfer;
  }

  lemma TickNode(T: Topology, s: Net, n: NodeId)
    requires n in s.nodes
    ensures var v := GetView(T, s, n);
            var kept := Release(T, n, PipeIn(T, n, v), v.tx).0;
            && n in Tick(T, s).nodes
            && Tick(T, s).nodes[n].orderBuf == Handed(T, n, v).1
            && Tick(T, s).nodes[n].pipeline == kept
            && Tick(T, s).nodes[n].buffered
               == BufferedAfter(T, s.nodes[n].buffered, |s.nodes[n].pipeline|, |PipeIn(T, n, v)|, |kept|)
  {
    hide Tick, GetView, Release, PipeIn, Handed, Arbitrate, Taken, RxOut, BufferedAfter;
    ViewNode(T, s, n);
    TickNodeIs(T, s, n);
  }

  lemma TickPort(T: Topology, sent: seq<Message>, s: Net, q: PortId)
    requires T.Valid() && PlacesOk(T, sent, s) && q in s.ports
    ensures T.NodeOf(q) in s.nodes
    ensures var ports := Handed(T, T.NodeOf(q), GetView(T, s, T.NodeOf(q))).0;
            q in ports && q in Tick(T, s).ports && Tick(T, s).ports[q] == ports[q]
  {
    hide Handed, GetView, NodePhase, PlacesOk;
    PortHanded(T, sent, s, q);
  }

  lemma PoppedBuffers(T: Topology, n: NodeId, v: View, q: PortId)
    requires q in v.ports
    ensures q in Popped(T, n, v)
    ensures Popped(T, n, v)[q].recvBuf == v.ports[q].recvBuf && Popped(T, n, v)[q].reserved == v.ports[q].reserved
  {
    hide Taken;
  }

  lemma DeliverReserves(ports: map<PortId, Port>, orderBuf: OrderBuf, p: Packet, q: PortId)
    requires q in ports
    ensures q in Deliver(ports, orderBuf, p).0 && Deliver(ports, orderBuf, p).0[q].reserved == ports[q].reserved
  {
    hide InsertByIdx;
  }

  /** What a tick means for the messages to ports of node `n`: `arr` before, `arr'` after. */
  ghost predicate Progress(T: Topology, sent: seq<Message>, arr: seq<nat>, arr': seq<nat>, n: NodeId,
                           p: Option<Packet>) {
    && CountsOk(T, sent, arr) && CountsOk(T, sent, arr')
    && (p.Some? ==> Genuine(T, sent, p.value) && p.value.tgt == n && p.value.idx == arr[p.value.xmt])
    && forall x :: 0 <= x < |sent| && T.NodeOf(sent[x].dst) == n ==>
                     arr'[x] == if p.Some? && p.value.xmt == x then p.value.idx + 1 else arr[x]
  }

  lemma TickProgress(T: Topology, sent: seq<Message>, s: Net, n: NodeId)
    requires T.Valid() && SentOk(T, sent) && PlacesOk(T, sent, s) && FlowsOk(T, sent, s)
    ensures Progress(T, sent, ArrivedSeq(T, sent, s), ArrivedSeq(T, sent, Tick(T, s)), n, DeliveredAt(T, s, n))
  {
    hide Arrived, Tick, EnteringAt, PlacesOk, FlowsOk, Topology.Valid;
    var p := DeliveredAt(T, s, n);
    DeliveredGenuine(T, sent, s, n);
    forall x | 0 <= x < |sent| && T.NodeOf(sent[x].dst) == n
      ensures Arrived(T, sent, Tick(T, s), x) == if p.Some?
                                                    && p.value.xmt == x then p.value.idx + 1 else Arrived(T, sent, s, x)
    {
      TickArrived(T, sent, s, x);
    }
    if p.Some? {
      TickArrived(T, sent, s, p.value.xmt);
    }
  }

  // ----- Ordering lists -----

  lemma OrderAgrees(T: Topology, sent: seq<Message>, arr1: seq<nat>, arr2: seq<nat>, n: NodeId, orderBuf: OrderBuf)
    requires |arr1| == |sent| == |arr2| && OrderOk(T, sent, arr1, n, orderBuf)
    requires forall x :: 0 <= x < |sent| && T.NodeOf(sent[x].dst) == n ==> arr1[x] == arr2[x]
    ensures OrderOk(T, sent, arr2, n, orderBuf)
  {
    assert forall x: nat :: Partial(T, sent, arr1, n, x) <==> Partial(T, sent, arr2, n, x);
  }

  /** The lists and ports of a node after its part of a tick, from an abstract point of view. */
  lemma HandedLists(T: Topology, sent: seq<Message>, arr: seq<nat>, arr': seq<nat>, n: NodeId, ports: map<PortId, Port>,
                    orderBuf: OrderBuf, p: Option<Packet>)
    requires Progress(T, sent, arr, arr', n, p) && OrderOk(T, sent, arr, n, orderBuf)
    requires p.Some? ==> p.value.dst in ports
    ensures OrderOk(T, sent, arr', n, if p.Some? then Deliver(ports, orderBuf, p.value).1 else orderBuf)
  {
    hide OrderOk, Deliver, Genuine;
    if p.Some? {
      assert p.value.xmt < |sent| by { GenuineId(T, sent, p.value); }
      DeliverLists(T, sent, arr, n, ports, orderBuf, p.value);
      OrderAgrees(T, sent, arr[p.value.xmt := p.value.idx + 1], arr', n, Deliver(ports, orderBuf, p.value).1);
    } else {
      OrderAgrees(T, sent, arr, arr', n, orderBuf);
    }
  }

  lemma GenuineId(T: Topology, sent: seq<Message>, p: Packet)
    requires Genuine(T, sent, p)
    ensures p.xmt < |sent| && p.dst == sent[p.xmt].dst && p.cha == sent[p.xmt].cha && p.src == sent[p.xmt].src
    ensures p.dst in T.port2node && p.tgt == T.NodeOf(p.dst) && p.cnt == Count(T, sent[p.xmt])
  {
  }

  lemma DestinationHere(T: Topology, sent: seq<Message>, s: Net, n: NodeId)
    requires T.Valid() && PlacesOk(T, sent, s) && DeliveredAt(T, s, n).Some?
    ensures n in s.nodes && DeliveredAt(T, s, n).value.dst in GetView(T, s, n).ports
    ensures DeliveredAt(T, s, n).value.dst in Popped(T, n, GetView(T, s, n))
  {
    hide EnteringAt, NodesOk, EdgesOk, PortsOk, Popped, Genuine;
    DeliveredGenuine(T, sent, s, n);
    GenuineId(T, sent, DeliveredAt(T, s, n).value);
    PoppedBuffers(T, n, GetView(T, s, n), DeliveredAt(T, s, n).value.dst);
  }

  lemma TickList(T: Topology, sent: seq<Message>, s: Net, n: NodeId)
    requires T.Valid() && SentOk(T, sent) && PlacesOk(T, sent, s) && FlowsOk(T, sent, s) && n in s.nodes
    requires OrderOk(T, sent, ArrivedSeq(T, sent, s), n, s.nodes[n].orderBuf)
    ensures n in Tick(T, s).nodes && OrderOk(T, sent, ArrivedSeq(T, sent, Tick(T, s)), n, Tick(T, s).nodes[n].orderBuf)
  {
    hide Tick, PlacesOk, FlowsOk, OrderOk, Progress, ArrivedSeq, Deliver, Popped, Entering, Topology.Valid;
    TickNode(T, s, n);
    TickProgress(T, sent, s, n);
    var p := DeliveredAt(T, s, n);
    if p.Some? {
      DestinationHere(T, sent, s, n);
    }
    HandedLists(T, sent, ArrivedSeq(T, sent, s), ArrivedSeq(T, sent, Tick(T, s)), n, Popped(T, n, GetView(T, s, n)),
                s.nodes[n].orderBuf, p);
  }

  lemma TickLists(T: Topology, sent: seq<Message>, s: Net)
    requires T.Valid() && SentOk(T, sent) && PlacesOk(T, sent, s) && FlowsOk(T, sent, s)
    requires ListsOk(T, sent, ArrivedSeq(T, sent, s), s)
    ensures ListsOk(T, sent, ArrivedSeq(T, sent, Tick(T, s)), Tick(T, s))
  {
    hide PlacesOk, FlowsOk, OrderOk, ArrivedSeq, NodePhase, UpdateCongestion, Topology.Valid, Tick;
    forall n | n in Tick(T, s).nodes
      ensures OrderOk(T, sent, ArrivedSeq(T, sent, Tick(T, s)), n, Tick(T, s).nodes[n].orderBuf)
    {
      TickKeys(T, s);
      TickList(T, sent, s, n);
    }
  }

  lemma NodePhaseKeys(T: Topology, s: Net)
    ensures NodePhase(T, s).edges.Keys == s.edges.Keys && NodePhase(T, s).nodes.Keys == s.nodes.Keys
            && NodePhase(T, s).ports.Keys == s.ports.Keys
  {
    hide InputAfter, OutputAfter, PortAfter, ProcessNode, GetView;
  }

  lemma TickKeys(T: Topology, s: Net)
    ensures Tick(T, s).nodes.Keys == s.nodes.Keys && Tick(T, s).ports.Keys == s.ports.Keys
            && Tick(T, s).edges.Keys == s.edges.Keys
  {
  }

  // ----- Receive buffers -----

  /** The receive queue of channel `c` once `packs` have been appended to the queue of channel `at`. */
  lemma PushedAt(port: Port, at: nat, packs: seq<Packet>, c: nat)
    requires c < |port.recvBuf|
    ensures |PushRecv(port, at, packs).recvBuf| == |port.recvBuf|
    ensures PushRecv(port, at, packs).recvBuf[c] == port.recvBuf[c] + if at == c then packs else []
  {
  }

  /** The receive buffer of a port after a tick: one complete message more, if the delivered packet completes it. */
  lemma TickBuffer(T: Topology, sent: seq<Message>, s: Net, q: PortId, c: nat)
    requires T.Valid() && SentOk(T, sent) && PlacesOk(T, sent, s) && FlowsOk(T, sent, s)
    requires ListsOk(T, sent, ArrivedSeq(T, sent, s), s) && q in s.ports && c < T.Channels()
    ensures var p := DeliveredAt(T, s, T.NodeOf(q));
            p.Some? ==> Genuine(T, sent, p.value)
    ensures var p := DeliveredAt(T, s, T.NodeOf(q));
            RecvAt(Tick(T, s), q, c) == RecvAt(s, q, c) +
            if p.Some? && p.value.dst == q && p.value.cha == c && p.value.idx + 1 == p.value.cnt
            then Packetize(T, sent[p.value.xmt], p.value.xmt) else []
  {
    hide Tick, PlacesOk, FlowsOk, OrderOk, ArrivedSeq, Popped, DeliveredAt, Deliver, Packetize, Genuine, Topology.Valid,
      GetView, PushRecv, Count;
    var n := T.NodeOf(q);

    TickPort(T, sent, s, q);
    HandedIs(T, sent, s, n);
    TickProgress(T, sent, s, n);
    var v, p := GetView(T, s, n), DeliveredAt(T, s, n);
    ViewPort(T, s, q);
    PoppedBuffers(T, n, v, q);
    RecvWidth(T, sent, s, q);
    if p.Some? {
      GenuineId(T, sent, p.value);
      DestinationHere(T, sent, s, n);
      DeliverBuffers(T, sent, ArrivedSeq(T, sent, s), n, Popped(T, n, v), v.node.orderBuf, p.value);
      PushedAt(Popped(T, n, v)[q], p.value.cha, Packetize(T, sent[p.value.xmt], p.value.xmt), c);
    }
  }

  lemma HandedIs(T: Topology, sent: seq<Message>, s: Net, n: NodeId)
    requires n in s.nodes
    ensures var v, p := GetView(T, s, n), DeliveredAt(T, s, n);
            && v.node == s.nodes[n]
            && Handed(T, n, v) == if p.Some? then Deliver(Popped(T, n, v), v.node.orderBuf, p.value)
                                  else (Popped(T, n, v), v.node.orderBuf)
  {
    hide Entering, Popped, Deliver, GetView;
    ViewNode(T, s, n);
  }

  lemma RecvWidth(T: Topology, sent: seq<Message>, s: Net, q: PortId)
    requires PlacesOk(T, sent, s) && q in s.ports
    ensures |s.ports[q].recvBuf| == |s.ports[q].sendBuf| == |s.ports[q].reserved| == T.Channels()
  {
  }

  /** The delivered packet is the last one of a message for port `q` and channel `c`. */
  predicate Completes(p: Option<Packet>, q: PortId, c: nat) {
    p.Some? && p.value.dst == q && p.value.cha == c && p.value.idx + 1 == p.value.cnt
  }

  lemma TickReady(T: Topology, sent: seq<Message>, s: Net, q: PortId, c: nat)
    requires T.Valid() && SentOk(T, sent) && PlacesOk(T, sent, s) && FlowsOk(T, sent, s)
    requires ListsOk(T, sent, ArrivedSeq(T, sent, s), s) && q in s.ports && c < T.Channels()
    requires Whole(T, sent, q, c, RecvAt(s, q, c))
    ensures Whole(T, sent, q, c, RecvAt(Tick(T, s), q, c))
    ensures var p := DeliveredAt(T, s, T.NodeOf(q));
            ReadyIds(RecvAt(Tick(T, s), q, c)) == ReadyIds(RecvAt(s, q, c)) + if Completes(p, q, c) then [p.value.xmt]
            else []
  {
    hide Tick, PlacesOk, FlowsOk, ListsOk, ArrivedSeq, Packetize, Whole, ReadyIds, RecvAt, DeliveredAt, Topology.Valid;
    TickBuffer(T, sent, s, q, c);
    var p := DeliveredAt(T, s, T.NodeOf(q));
    if Completes(p, q, c) {
      AppendWhole(T, sent, q, c, RecvAt(s, q, c), p.value.xmt);
    } else {
      assert RecvAt(Tick(T, s), q, c) == RecvAt(s, q, c);
    }
  }

  lemma TickBuffers(T: Topology, sent: seq<Message>, s: Net)
    requires T.Valid() && SentOk(T, sent) && PlacesOk(T, sent, s) && FlowsOk(T, sent, s)
    requires ListsOk(T, sent, ArrivedSeq(T, sent, s), s) && BuffersOk(T, sent, s)
    ensures BuffersOk(T, sent, Tick(T, s))
  {
    hide Tick, PlacesOk, FlowsOk, ListsOk, ArrivedSeq, Whole, ReadyIds, RecvAt, DeliveredAt, Topology.Valid;
    TickKeys(T, s);
    forall q, c | q in Tick(T, s).ports && 0 <= c < T.Channels()
      ensures Whole(T, sent, q, c, RecvAt(Tick(T, s), q, c))
    {
      assert Whole(T, sent, q, c, RecvAt(s, q, c));
      TickReady(T, sent, s, q, c);
    }
  }

  // ----- Completed messages -----

  lemma DoneSame(T: Topology, h: History, arr: seq<nat>, arr': seq<nat>, ready: seq<nat>, ready': seq<nat>, f: Flow)
    requires DoneOk(T, h, arr, ready, f) && DoneIds(h, ready', f) == DoneIds(h, ready, f)
    requires forall y: nat :: Complete(T, h.sent, arr', f, y) <==> Complete(T, h.sent, arr, f, y)
    ensures DoneOk(T, h, arr', ready', f)
  {
    hide DoneIds, Complete;
  }

  /** Completeness only changes for the message whose last packet is delivered. */
  lemma CompleteAfter(T: Topology, sent: seq<Message>, arr: seq<nat>, arr': seq<nat>, p: Option<Packet>, f: Flow,
                      y: nat)
    requires Progress(T, sent, arr, arr', T.NodeOf(f.dst), p)
    ensures Complete(T, sent, arr', f, y) <==>
            Complete(T, sent, arr, f, y) || (Completes(p, f.dst, f.cha) && p.value.xmt == y && FlowOf(p.value) == f)
    ensures p.Some? && p.value.xmt == y ==> !Complete(T, sent, arr, f, y)
  {
    if p.Some? {
      GenuineId(T, sent, p.value);
    }
  }

  lemma EarlierComplete(T: Topology, sent: seq<Message>, s: Net, f: Flow, x: nat, y: nat)
    requires SentOk(T, sent) && x < |sent| && MessageFlow(sent[x]) == f
    requires !Complete(T, sent, ArrivedSeq(T, sent, s), f, x) && Complete(T, sent, ArrivedSeq(T, sent, s), f, y)
    ensures y < x
  {
    hide ArrivedOf, Arrivals;
    if x < y {
      CompleteInOrder(T, sent, x, y, Arrivals(T, sent, s, f));
    }
  }

  lemma TickDoneFlow(T: Topology, h: History, s: Net, f: Flow, arr: seq<nat>, arr': seq<nat>, ready: seq<nat>,
                     ready': seq<nat>, p: Option<Packet>)
    requires SentOk(T, h.sent) && arr == ArrivedSeq(T, h.sent, s) && Progress(T, h.sent, arr, arr', T.NodeOf(f.dst), p)
    requires DoneOk(T, h, arr, ready, f)
    requires ready' == ready + if Completes(p, f.dst, f.cha) then [p.value.xmt] else []
    ensures DoneOk(T, h, arr', ready', f)
  {
    hide Complete, DoneOk, ArrivedSeq, Progress, OfIds;
    forall y: nat
      ensures Complete(T, h.sent, arr', f, y) <==>
              Complete(T, h.sent, arr, f, y) || (Completes(p, f.dst, f.cha) && p.value.xmt == y && FlowOf(p.value) == f)
    {
      CompleteAfter(T, h.sent, arr, arr', p, f, y);
    }
    if Completes(p, f.dst, f.cha) {
      var x := p.value.xmt;
      ProgressId(T, h.sent, arr, arr', T.NodeOf(f.dst), p);
      if FlowOf(p.value) == f {
        CompleteAfter(T, h.sent, arr, arr', p, f, x);
        forall y: nat | Complete(T, h.sent, arr, f, y) ensures y < x {
          EarlierComplete(T, h.sent, s, f, x, y);
        }
        DoneAppends(T, h, arr, arr', ready, f, x);
      } else {
        OfIdsConcat(h.sent, ready, [x], f);
        OtherFlow(h.sent, x, f);
        DoneSame(T, h, arr, arr', ready, ready', f);
      }
    } else {
      assert ready' == ready;
      DoneSame(T, h, arr, arr', ready, ready', f);
    }
  }

  lemma OtherFlow(sent: seq<Message>, x: nat, f: Flow)
    requires x < |sent| && MessageFlow(sent[x]) != f
    ensures OfIds(sent, [x], f) == []
  {
  }

  lemma ProgressId(T: Topology, sent: seq<Message>, arr: seq<nat>, arr': seq<nat>, n: NodeId, p: Option<Packet>)
    requires Progress(T, sent, arr, arr', n, p) && p.Some?
    ensures p.value.xmt < |sent| && MessageFlow(sent[p.value.xmt]) == FlowOf(p.value)
  {
  }

  lemma TickDone(T: Topology, h: History, s: Net)
    requires T.Valid() && SentOk(T, h.sent) && PlacesOk(T, h.sent, s) && FlowsOk(T, h.sent, s)
    requires ListsOk(T, h.sent, ArrivedSeq(T, h.sent, s), s) && BuffersOk(T, h.sent, s)
    requires AllDone(T, h, ArrivedSeq(T, h.sent, s), s)
    ensures AllDone(T, h, ArrivedSeq(T, h.sent, Tick(T, s)), Tick(T, s))
  {
    hide Tick, NodesOk, EdgesOk, PortsOk, FlowsOk, ListsOk, ArrivedSeq, Whole, ReadyIds, RecvAt, DeliveredAt, DoneOk,
      Topology.Valid, Progress;
    var arr, arr' := ArrivedSeq(T, h.sent, s), ArrivedSeq(T, h.sent, Tick(T, s));
    forall f | FlowOk(T, f)
      ensures DoneOk(T, h, arr', ReadyIds(RecvAt(Tick(T, s), f.dst, f.cha)), f)
    {
      assert Whole(T, h.sent, f.dst, f.cha, RecvAt(s, f.dst, f.cha));
      TickReady(T, h.sent, s, f.dst, f.cha);
      TickProgress(T, h.sent, s, T.NodeOf(f.dst));
      TickDoneFlow(T, h, s, f, arr, arr', ReadyIds(RecvAt(s, f.dst, f.cha)), ReadyIds(RecvAt(Tick(T, s), f.dst, f.cha)),
                   DeliveredAt(T, s, T.NodeOf(f.dst)));
    }
  }

  // ----- Counters and credits -----

  lemma PipeInLength(T: Topology, n: NodeId, v: View)
    ensures |v.node.pipeline| <= |PipeIn(T, n, v)| <= |v.node.pipeline| + 1
    ensures T.config.congestion.enabled && v.node.buffered >= T.config.congestion.limit ==>
              |PipeIn(T, n, v)| == |v.node.pipeline|
  {
    hide Arbitrate;
  }

  lemma TickCounter(T: Topology, s: Net, n: NodeId)
    requires n in s.nodes && CounterOk(T, s.nodes[n])
    ensures n in Tick(T, s).nodes && CounterOk(T, Tick(T, s).nodes[n])
  {
    hide Tick, GetView, Release, PipeIn, Handed;
    TickNode(T, s, n);
    ViewNode(T, s, n);
    var v := GetView(T, s, n);
    PipeInLength(T, n, v);
    ReleaseFills(T, n, PipeIn(T, n, v), v.tx);
  }

  lemma TickCounters(T: Topology, s: Net)
    requires CountersOk(T, s)
    ensures CountersOk(T, Tick(T, s))
  {
    hide Tick, CounterOk;
    TickKeys(T, s);
    forall n | n in Tick(T, s).nodes ensures CounterOk(T, Tick(T, s).nodes[n]) {
      TickCounter(T, s, n);
    }
  }

  lemma TickReserved(T: Topology, sent: seq<Message>, s: Net, q: PortId)
    requires T.Valid() && PlacesOk(T, sent, s) && q in s.ports
    ensures q in Tick(T, s).ports && Tick(T, s).ports[q].reserved == s.ports[q].reserved
  {
    hide Tick, PlacesOk, GetView, Popped, DeliveredAt, Deliver;
    var n := T.NodeOf(q);
    TickPort(T, sent, s, q);
    HandedIs(T, sent, s, n);
    ViewPort(T, s, q);
    PoppedBuffers(T, n, GetView(T, s, n), q);
    if DeliveredAt(T, s, n).Some? {
      DeliverReserves(Popped(T, n, GetView(T, s, n)), GetView(T, s, n).node.orderBuf, DeliveredAt(T, s, n).value, q);
    }
  }

  lemma TickCredit(T: Topology, h: History, s: Net)
    requires T.Valid() && PlacesOk(T, h.sent, s) && CreditOk(T, h, s)
    ensures CreditOk(T, h, Tick(T, s))
  {
    hide Tick, PlacesOk, Topology.Valid;
    TickKeys(T, s);
    forall q | q in Tick(T, s).ports ensures Tick(T, s).ports[q].reserved == s.ports[q].reserved {
      TickReserved(T, h.sent, s, q);
    }
    CreditSame(T, h, s, Tick(T, s));
  }

  lemma CreditSame(T: Topology, h: History, s: Net, s': Net)
    requires CreditOk(T, h, s) && s'.ports.Keys == s.ports.Keys
    requires forall q :: q in s'.ports ==> s'.ports[q].reserved == s.ports[q].reserved
    ensures CreditOk(T, h, s')
  {
    forall q, c | q in s'.ports && 0 <= c < |s'.ports[q].reserved|
      ensures if T.config.slots > 0 then s'.ports[q].reserved[c] == Outstanding(h, q, c, |h.sent|) <= T.config.slots
              else s'.ports[q].reserved[c] == 0
    {
      assert s.ports[q].reserved[c] == s'.ports[q].reserved[c];
    }
  }

  lemma TickFlows(T: Topology, sent: seq<Message>, s: Net)
    requires T.Valid() && SentOk(T, sent) && PlacesOk(T, sent, s) && FlowsOk(T, sent, s)
    ensures FlowsOk(T, sent, Tick(T, s))
  {
    hide Tick, PlacesOk, InOrder, FlowOk, Topology.Valid;
    forall f | FlowOk(T, f) ensures InOrder(T, sent, Tick(T, s), f) {
      TickArrivals(T, sent, s, f);
    }
  }

  /** Every state reached by a tick from a consistent one is consistent, with the same history. */
  lemma TickInv(T: Topology, h: History, s: Net)
    requires T.Valid() && Inv(T, h, s)
    ensures Inv(T, h, Tick(T, s))
  {
    hide Topology.Valid, PlacesOk, FlowsOk, ListsOk, BuffersOk, AllDone, CountersOk, CreditOk, SentOk, ArrivedSeq,
      NodePhase, EdgePhase, Refresh;
    TickPlaces(T, h.sent, s);
    TickFlows(T, h.sent, s);
    TickLists(T, h.sent, s);
    TickBuffers(T, h.sent, s);
    TickDone(T, h, s);
    TickCounters(T, s);
    TickCredit(T, h, s);
    TickIds(T, s);
  }

  lemma TickIds(T: Topology, s: Net)
    ensures Tick(T, s).nextXmt == s.nextXmt && Tick(T, s).tick == s.tick + 1
  {
    hide PortAfter, InputAfter, OutputAfter, ProcessNode, GetView, Transfer, UpdateCongestion;
  }
}
