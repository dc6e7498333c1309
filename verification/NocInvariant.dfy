/**
 What every reachable state of the bus satisfies, relative to the history of
 accepted messages: where packets may be, and that the packets of each flow
 still on their way are, in order, a suffix of the packets sent.
 */
module NocInvariant {
  import opened Arith
  import opened Wrappers
  import opened RouteTable
  import opened NocState

  datatype Flow = Flow(src: PortId, dst: PortId, cha: nat)

  /**
   Accepted messages in order (a message's transfer id is its position) and the ids handed out by `recv`, in order.
   */
  datatype History = History(sent: seq<Message>, received: seq<nat>)

  function FlowOf(p: Packet): Flow { Flow(p.src, p.dst, p.cha) }

  function MessageFlow(m: Message): Flow { Flow(m.src, m.dst, m.cha) }

  /** The length of `data` and the padding after it can be added without 32-bit wrap-around. */
  predicate SizeFits(size: nat, width: nat) { (if size == 0 then 1 else size) + width <= WORD32 }

  predicate MessageOk(T: Topology, m: Message) {
    && m.src in T.port2node && m.dst in T.port2node && m.cha < T.Channels()
    && 0 < T.widths[m.cha] <= MAX_WIDTH && SizeFits(|m.data|, T.widths[m.cha])
    && 1 <= PacketCount(|m.data|, T.widths[m.cha]) <= MAX_PACKETS
  }

  function Count(T: Topology, m: Message): nat
    requires MessageOk(T, m)
  {
    PacketCount(|m.data|, T.widths[m.cha])
  }

  predicate SentOk(T: Topology, sent: seq<Message>) {
    forall x :: 0 <= x < |sent| ==> MessageOk(T, sent[x])
  }

  /** `p` is the packet that `send` made with this transfer id and index. */
  predicate Genuine(T: Topology, sent: seq<Message>, p: Packet) {
    && p.xmt < |sent| && MessageOk(T, sent[p.xmt])
    && p.idx < Count(T, sent[p.xmt]) && p == MakePacket(T, sent[p.xmt], p.xmt, p.idx)
  }

  // ----- Routes -----

  lemma Hop(T: Topology, n: NodeId, t: NodeId)
    requires T.Valid() && n in T.nodes && t in T.nodes && n != t
    ensures T.Next(n, t) in T.nodes && T.Next(n, t) != n && (n, T.Next(n, t)) in T.links
    ensures T.Reaches(n, t) && T.Dist(n, t) == T.Dist(T.Next(n, t), t) + 1
  {
    assert T.Reaches(n, t) && T.Reaches(T.Next(n, t), t) by { NextReaches(T, n, t); }
    DistanceStep(T.nodes, T.route, n, t);
  }

  lemma NextReaches(T: Topology, n: NodeId, t: NodeId)
    requires T.Valid() && n in T.nodes && t in T.nodes && n != t
    ensures T.Reaches(n, t) && T.Next(n, t) in T.nodes && T.Reaches(T.Next(n, t), t)
  {
    assert Reachable(T.nodes, T.route, n, t);
    DistanceStep(T.nodes, T.route, n, t);
  }

  /** The distance drops by one along a reaching route, whatever else the topology looks like. */
  lemma Closer(T: Topology, n: NodeId, t: NodeId)
    requires n != t && T.Reaches(n, t)
    ensures T.Reaches(T.Next(n, t), t) && T.Dist(T.Next(n, t), t) < T.Dist(n, t)
  {
    DistanceStep(T.nodes, T.route, n, t);
  }

  /** The route from `o` to `t` visits `n`. */
  ghost predicate OnPath(T: Topology, o: NodeId, n: NodeId, t: NodeId)
    decreases T.Dist(o, t)
  {
    o == n || (o != t && T.Reaches(o, t) && (Closer(T, o, t); OnPath(T, T.Next(o, t), n, t)))
  }

  lemma {:induction false} OnPathNext(T: Topology, o: NodeId, n: NodeId, t: NodeId)
    requires T.Valid() && o in T.nodes && n in T.nodes && t in T.nodes && n != t
    requires OnPath(T, o, n, t)
    ensures T.Next(n, t) in T.nodes && OnPath(T, o, T.Next(n, t), t)
    decreases T.Dist(o, t)
  {
    Hop(T, n, t);
    if o == n {
      assert OnPath(T, T.Next(o, t), T.Next(n, t), t);
    } else {
      Hop(T, o, t);
      OnPathNext(T, T.Next(o, t), n, t);
    }
  }

  /** Routes have no loops: the remaining distance tells the nodes of one route apart. */
  lemma {:induction false} OnPathDist(T: Topology, o: NodeId, n: NodeId, t: NodeId)
    requires OnPath(T, o, n, t)
    ensures T.Dist(n, t) <= T.Dist(o, t)
    ensures T.Dist(n, t) == T.Dist(o, t) ==> n == o
    decreases T.Dist(o, t)
  {
    if o != n {
      Closer(T, o, t);
      OnPathDist(T, T.Next(o, t), n, t);
    }
  }

  lemma {:induction false} OnPathUnique(T: Topology, o: NodeId, m: NodeId, n: NodeId, t: NodeId)
    requires OnPath(T, o, m, t) && OnPath(T, o, n, t) && T.Dist(m, t) == T.Dist(n, t)
    ensures m == n
    decreases T.Dist(o, t)
  {
    OnPathDist(T, o, m, t);
    OnPathDist(T, o, n, t);
    if o != m && o != n {
      Closer(T, o, t);
      OnPathUnique(T, T.Next(o, t), m, n, t);
    }
  }

  lemma OnPathStart(T: Topology, o: NodeId, t: NodeId)
    ensures OnPath(T, o, o, t)
  {
  }

  // ----- The packets of one flow -----

  function Only(p: Packet, f: Flow): seq<Packet> {
    if FlowOf(p) == f then [p] else []
  }

  function OfSlot(o: Option<Packet>, f: Flow): seq<Packet> {
    if o.Some? then Only(o.value, f) else []
  }

  function OfQueue(q: seq<Packet>, f: Flow): seq<Packet> {
    if q == [] then [] else Only(q[0], f) + OfQueue(q[1..], f)
  }

  function OfPipe(pipe: seq<Piped>, f: Flow): seq<Packet> {
    if pipe == [] then [] else Only(pipe[0].pack, f) + OfPipe(pipe[1..], f)
  }

  function Slot(slots: Slots, c: nat): Option<Packet> {
    if c < |slots| then slots[c] else None
  }

  lemma {:induction false} OfPipeAppend(pipe: seq<Piped>, e: Piped, f: Flow)
    ensures OfPipe(pipe + [e], f) == OfPipe(pipe, f) + Only(e.pack, f)
  {
    if pipe == [] {
      assert pipe + [e] == [e];
    } else {
      assert (pipe + [e])[1..] == pipe[1..] + [e];
      OfPipeAppend(pipe[1..], e, f);
    }
  }

  /** A queue of one flow is kept whole or dropped whole. */
  lemma {:induction false} OfQueueUniform(q: seq<Packet>, g: Flow, f: Flow)
    requires forall i :: 0 <= i < |q| ==> FlowOf(q[i]) == g
    ensures OfQueue(q, f) == if f == g then q else []
  {
    if q != [] {
      OfQueueUniform(q[1..], g, f);
      assert FlowOf(q[0]) == g;
    }
  }

  // ----- Where packets may be -----

  ghost predicate RightPlace(T: Topology, sent: seq<Message>, n: NodeId, p: Packet) {
    && Genuine(T, sent, p) && p.tgt != n
    && OnPath(T, T.NodeOf(p.src), n, p.tgt)
  }

  predicate Sorted(pipe: seq<Piped>) {
    forall i, j :: 0 <= i < j < |pipe| ==> pipe[i].remain <= pipe[j].remain
  }

  ghost predicate StaysOk(T: Topology, sent: seq<Message>, n: NodeId, e: Piped)
  {
    RightPlace(T, sent, n, e.pack) && e.remain <= T.config.latency
  }

  ghost predicate AllStay(T: Topology, sent: seq<Message>, n: NodeId, pipe: seq<Piped>)
  {
    forall i :: 0 <= i < |pipe| ==> StaysOk(T, sent, n, pipe[i])
  }

  /** The pipeline of `n` holds packets that still have to leave `n`, ordered by remaining cycles. */
  ghost predicate PipeOk(T: Topology, sent: seq<Message>, n: NodeId, pipe: seq<Piped>)
  {
    AllStay(T, sent, n, pipe) && Sorted(pipe)
  }

  /** The registers of the link from `k` to `m` hold, per channel, a packet routed over that link. */
  ghost predicate SlotsOk(T: Topology, sent: seq<Message>, k: NodeId, m: NodeId, slots: Slots)
  {
    && |slots| == T.Channels()
    && forall c :: 0 <= c < |slots| && slots[c].Some? ==>
                     RightPlace(T, sent, k, slots[c].value) && slots[c].value.cha == c
                     && T.Next(k, slots[c].value.tgt) == m
  }

  /** A send queue is what is left of a single message. */
  predicate QueueOk(T: Topology, sent: seq<Message>, q: PortId, c: nat, queue: seq<Packet>) {
    queue != [] ==>
      && Genuine(T, sent, queue[0]) && queue[0].src == q && queue[0].cha == c
      && queue == Packetize(T, sent[queue[0].xmt], queue[0].xmt)[queue[0].idx..]
  }

  predicate QueuesOk(T: Topology, sent: seq<Message>, q: PortId, port: Port) {
    && |port.sendBuf| == |port.recvBuf| == |port.reserved| == T.Channels()
    && forall c :: 0 <= c < |port.sendBuf| ==> QueueOk(T, sent, q, c, port.sendBuf[c])
  }

  predicate PointerOk(ptr: nat, n: nat) { ptr < n || n == 0 }

  ghost predicate ViewOk(T: Topology, sent: seq<Message>, n: NodeId, v: View)
  {
    && PipeOk(T, sent, n, v.node.pipeline)
    && PointerOk(v.node.rxPtr, |T.Rxs(n)|) && PointerOk(v.node.sdPtr, |T.Attached(n)|)
    && (forall k :: k in v.rx <==> (k, n) in T.links)
    && (forall m :: m in v.tx <==> (n, m) in T.links)
    && (forall q :: q in v.ports <==> q in T.port2node && T.NodeOf(q) == n)
    && (forall k :: k in v.rx ==> SlotsOk(T, sent, k, n, v.rx[k]))
    && (forall m :: m in v.tx ==> SlotsOk(T, sent, n, m, v.tx[m]))
    && (forall q :: q in v.ports ==> QueuesOk(T, sent, q, v.ports[q]))
  }

  ghost predicate NodeOk(T: Topology, sent: seq<Message>, n: NodeId, node: Node) {
    PipeOk(T, sent, n, node.pipeline) && PointerOk(node.rxPtr, |T.Rxs(n)|) && PointerOk(node.sdPtr, |T.Attached(n)|)
  }

  ghost predicate EdgeOk(T: Topology, sent: seq<Message>, l: Link, e: Edge) {
    SlotsOk(T, sent, l.0, l.1, e.input) && SlotsOk(T, sent, l.0, l.1, e.output)
  }

  ghost predicate NodesOk(T: Topology, sent: seq<Message>, s: Net) {
    forall n {:trigger s.nodes[n]} :: n in s.nodes ==> NodeOk(T, sent, n, s.nodes[n])
  }

  ghost predicate EdgesOk(T: Topology, sent: seq<Message>, s: Net) {
    forall l {:trigger s.edges[l]} :: l in s.edges ==> EdgeOk(T, sent, l, s.edges[l])
  }

  ghost predicate PortsOk(T: Topology, sent: seq<Message>, s: Net) {
    forall q {:trigger s.ports[q]} :: q in s.ports ==> QueuesOk(T, sent, q, s.ports[q])
  }

  /** Every place of the network holds only packets that belong there. */
  ghost predicate PlacesOk(T: Topology, sent: seq<Message>, s: Net) {
    Wired(T, s) && NodesOk(T, sent, s) && EdgesOk(T, sent, s) && PortsOk(T, sent, s)
  }

  lemma WiredNodes(T: Topology, sent: seq<Message>, s: Net)
    requires PlacesOk(T, sent, s)
    ensures s.nodes.Keys == T.nodes && s.edges.Keys == T.links && s.ports.Keys == T.port2node.Keys
  {
  }

  // ----- Packets on their way -----

  function Target(T: Topology, f: Flow): NodeId { T.NodeOf(f.dst) }

  function Origin(T: Topology, f: Flow): NodeId { T.NodeOf(f.src) }

  ghost predicate FlowOk(T: Topology, f: Flow) {
    f.src in T.port2node && f.dst in T.port2node && f.cha < T.Channels()
  }

  function EdgeAt(s: Net, l: Link): Edge { if l in s.edges then s.edges[l] else Edge([], []) }

  function PipeAt(s: Net, n: NodeId): seq<Piped> { if n in s.nodes then s.nodes[n].pipeline else [] }

  /** The packets of `f` admitted by node `n` or by a later node of its route and not yet delivered, furthest first. */
  ghost function Ahead(T: Topology, s: Net, f: Flow, n: NodeId): seq<Packet>
    decreases T.Dist(n, Target(T, f))
  {
    var t := Target(T, f);
    if n == t || !T.Reaches(n, t) then []
    else
      Closer(T, n, t);
      var m := T.Next(n, t);
      Ahead(T, s, f, m) + Segment(EdgeAt(s, (n, m)), PipeAt(s, n), f)
  }

  /** One node's share of the route: its outgoing link and its pipeline. */
  function Segment(e: Edge, pipe: seq<Piped>, f: Flow): seq<Packet> {
    OfSlot(Slot(e.output, f.cha), f) + (OfSlot(Slot(e.input, f.cha), f) + OfPipe(pipe, f))
  }

  function QueueAt(s: Net, q: PortId, c: nat): seq<Packet> {
    if q in s.ports then Queue(s.ports[q], c) else []
  }

  /** All packets of `f` that are sent and not yet delivered to the destination node, oldest first. */
  ghost function Transit(T: Topology, s: Net, f: Flow): seq<Packet> {
    Ahead(T, s, f, Origin(T, f)) + OfQueue(QueueAt(s, f.src, f.cha), f)
  }
}
