/** Latency: no packet travels faster than one hop every `latency + 1` ticks, whatever the traffic. */
module NocTiming {
  import opened RouteTable
  import opened NocState
  import opened NocInvariant
  import opened NocNodeStep
  import opened NocFlow
  import opened NocHistory
  import opened NocSystem
  import opened NocTick
  import opened NocConservation

  /** The least number of ticks it takes to cross `hops` links. */
  function HopTime(T: Topology, hops: nat): nat {
    if hops == 0 then 0 else HopTime(T, hops - 1) + T.config.latency + 1
  }

  lemma {:induction false} HopTimeIs(T: Topology, hops: nat)
    ensures HopTime(T, hops) == hops * (T.config.latency + 1)
  {
    if hops > 0 {
      HopTimeIs(T, hops - 1);
      var w := T.config.latency + 1;
      assert (hops - 1) * w == hops * w - w;
    }
  }

  lemma {:induction false} HopTimeMonotone(T: Topology, a: nat, b: nat)
    requires a <= b
    ensures HopTime(T, a) <= HopTime(T, b)
    decreases b
  {
    if a < b {
      HopTimeMonotone(T, a, b - 1);
    }
  }

  /** Hops behind a packet whose pipeline is at `n`. */
  ghost function Behind(T: Topology, n: NodeId, p: Packet): nat {
    Clamp(T.Dist(T.NodeOf(p.src), p.tgt) - T.Dist(n, p.tgt), T.Dist(T.NodeOf(p.src), p.tgt))
  }

  // The earliest tick at which a packet can be seen in a place.

  ghost function PipeStamp(T: Topology, n: NodeId, e: Piped): int {
    e.pack.start + e.pack.idx + HopTime(T, Behind(T, n, e.pack)) + (T.config.latency - e.remain)
  }

  /** On the link out of `k`. */
  ghost function LinkStamp(T: Topology, k: NodeId, p: Packet): int {
    p.start + p.idx + HopTime(T, Behind(T, k, p) + 1)
  }

  function QueueStamp(p: Packet): int { p.start + p.idx }

  /** The limit may be sharper for the last packets of a message: from index `from` on they are one tick behind it. */
  datatype Lag = NoLag | Late(x: nat, from: nat)

  function LagAt(g: Lag, x: nat, idx: nat): nat {
    if g.Late? && g.x == x && g.from <= idx then 1 else 0
  }

  function LagOf(g: Lag, p: Packet): nat { LagAt(g, p.xmt, p.idx) }

  // ----- The invariant -----

  ghost predicate PipeTimely(g: Lag, T: Topology, n: NodeId, pipe: seq<Piped>, now: int) {
    forall i :: 0 <= i < |pipe| ==> PipeStamp(T, n, pipe[i]) + LagOf(g, pipe[i].pack) <= now
  }

  ghost predicate SlotsTimely(g: Lag, T: Topology, k: NodeId, slots: Slots, now: int) {
    forall c :: 0 <= c < |slots| && slots[c].Some? ==> LinkStamp(T, k, slots[c].value) + LagOf(g, slots[c].value) <= now
  }

  predicate QueueTimely(g: Lag, queue: seq<Packet>, now: int) {
    queue != [] ==>
      && QueueStamp(queue[0]) + LagOf(g, queue[0]) <= now
      && (g.Late? && queue[0].xmt == g.x ==> g.from <= queue[0].idx)
  }

  /** Earliest arrival of the first `k` packets of a message. */
  ghost function ArrivalStamp(T: Topology, m: Message, k: nat): int {
    m.start + k + HopTime(T, T.Dist(T.NodeOf(m.src), T.NodeOf(m.dst)))
  }

  ghost predicate PipesTimely(g: Lag, T: Topology, s: Net) {
    forall n {:trigger s.nodes[n]} :: n in s.nodes ==> PipeTimely(g, T, n, s.nodes[n].pipeline, s.tick)
  }

  ghost predicate LinkTimely(g: Lag, T: Topology, k: NodeId, e: Edge, now: int) {
    SlotsTimely(g, T, k, e.input, now) && SlotsTimely(g, T, k, e.output, now)
  }

  ghost predicate LinksTimely(g: Lag, T: Topology, s: Net) {
    forall l {:trigger s.edges[l]} :: l in s.edges ==> LinkTimely(g, T, l.0, s.edges[l], s.tick)
  }

  predicate PortTimely(g: Lag, port: Port, now: int) {
    forall c :: 0 <= c < |port.sendBuf| ==> QueueTimely(g, port.sendBuf[c], now)
  }

  ghost predicate QueuesTimely(g: Lag, s: Net) {
    forall q {:trigger s.ports[q]} :: q in s.ports ==> PortTimely(g, s.ports[q], s.tick)
  }

  ghost predicate MessagesTimely(g: Lag, T: Topology, sent: seq<Message>, s: Net)
    requires SentOk(T, sent)
  {
    forall x :: 0 <= x < |sent| ==>
                  sent[x].start <= s.tick
                  && (Arrived(T, sent, s, x) > 0 ==>
                        ArrivalStamp(T, sent[x], Arrived(T, sent, s, x))
                        + LagAt(g, x, Arrived(T, sent, s, x) - 1) <= s.tick)
  }

  ghost predicate Timely(g: Lag, T: Topology, sent: seq<Message>, s: Net)
    requires SentOk(T, sent)
  {
    PipesTimely(g, T, s) && LinksTimely(g, T, s) && QueuesTimely(g, s) && MessagesTimely(g, T, sent, s)
  }

  // ----- The release pass -----

  ghost predicate TxTimely(g: Lag, T: Topology, n: NodeId, tx: map<NodeId, Slots>, now: int) {
    forall m :: m in tx ==> SlotsTimely(g, T, n, tx[m], now)
  }

  lemma AgedStamp(T: Topology, n: NodeId, e: Piped)
    requires e.remain <= T.config.latency
    ensures PipeStamp(T, n, Aged(e)) <= PipeStamp(T, n, e) + 1
    ensures e.remain > 0 ==> PipeStamp(T, n, Aged(e)) == PipeStamp(T, n, e) + 1
    ensures e.remain == 0 ==> LinkStamp(T, n, e.pack) == PipeStamp(T, n, e) + 1
  {
  }

  ghost predicate Waits(T: Topology, pipe: seq<Piped>) {
    forall i :: 0 <= i < |pipe| ==> pipe[i].remain <= T.config.latency
  }

  lemma PipeTimelyCons(g: Lag, T: Topology, n: NodeId, e: Piped, pipe: seq<Piped>, now: int)
    ensures PipeTimely(g, T, n, [e] + pipe, now) <==>
            PipeStamp(T, n, e) + LagOf(g, e.pack) <= now && PipeTimely(g, T, n, pipe, now)
  {
    hide PipeStamp;
    var all := [e] + pipe;
    assert all[0] == e;
    if PipeTimely(g, T, n, all, now) {
      forall i | 0 <= i < |pipe|
        ensures PipeStamp(T, n, pipe[i]) + LagOf(g, pipe[i].pack) <= now { assert pipe[i] == all[i + 1]; }
    }
  }

  lemma {:induction false} ReleaseTimely(g: Lag, T: Topology, n: NodeId, pipe: seq<Piped>, tx: map<NodeId, Slots>,
                                         now: int)
    requires PipeTimely(g, T, n, pipe, now) && Waits(T, pipe) && TxTimely(g, T, n, tx, now + 1)
    ensures PipeTimely(g, T, n, Release(T, n, pipe, tx).0, now + 1)
    ensures TxTimely(g, T, n, Release(T, n, pipe, tx).1, now + 1)
    decreases |pipe|
  {
    hide PipeStamp, LinkStamp;
    if pipe != [] {
      var head, rest, tx1 := pipe[0], pipe[1..], Filled(T, n, pipe[0], tx);
      assert pipe == [head] + rest;
      PipeTimelyCons(g, T, n, head, rest, now);
      AgedStamp(T, n, head);
      assert TxTimely(g, T, n, tx1, now + 1);
      assert Waits(T, rest);
      ReleaseTimely(g, T, n, rest, tx1, now);
      PipeTimelyCons(g, T, n, Aged(head), Release(T, n, rest, tx1).0, now + 1);
    }
  }

  // ----- A node -----

  /** Entering the next node costs nothing by itself: the stamps of the old and the new place agree. */
  lemma EnterFromLink(T: Topology, sent: seq<Message>, k: NodeId, n: NodeId, p: Packet)
    requires T.Valid() && k in T.nodes && n in T.nodes && RightPlace(T, sent, k, p) && T.Next(k, p.tgt) == n
    ensures LinkStamp(T, k, p) == QueueStamp(p) + HopTime(T, Behind(T, n, p))
    ensures Behind(T, n, p) == Behind(T, k, p) + 1 && T.Dist(n, p.tgt) <= T.Dist(T.NodeOf(p.src), p.tgt)
  {
    hide OnPath;
    PacketTargetNode(T, sent, k, p);
    Hop(T, k, p.tgt);
    OnPathDist(T, T.NodeOf(p.src), k, p.tgt);
  }

  lemma PacketTargetNode(T: Topology, sent: seq<Message>, k: NodeId, p: Packet)
    requires T.Valid() && RightPlace(T, sent, k, p)
    ensures p.tgt in T.nodes && T.NodeOf(p.src) in T.nodes && p.tgt != k && p.cha < T.Channels()
    ensures OnPath(T, T.NodeOf(p.src), k, p.tgt)
  {
    hide OnPath;
  }

  lemma EnterFromQueue(T: Topology, p: Packet)
    ensures HopTime(T, Behind(T, T.NodeOf(p.src), p)) == 0
  {
  }

  ghost predicate ViewTimely(g: Lag, T: Topology, n: NodeId, v: View, now: int) {
    && PipeTimely(g, T, n, v.node.pipeline, now) && TxTimely(g, T, n, v.tx, now)
    && (forall k :: k in v.rx ==> SlotsTimely(g, T, k, v.rx[k], now))
    && (forall q :: q in v.ports ==> PortTimely(g, v.ports[q], now))
  }

  /** The packet a node admits is not early. */
  lemma EnteringTimely(g: Lag, T: Topology, sent: seq<Message>, n: NodeId, v: View, now: int)
    requires T.Valid() && n in T.nodes && ViewOk(T, sent, n, v) && ViewTimely(g, T, n, v, now)
    ensures var p := Entering(T, n, v); p.Some? ==>
              QueueStamp(p.value) + HopTime(T, Behind(T, n, p.value)) + LagOf(g, p.value) <= now
  {
    hide Taken, Behind, OnPath, ViewOk, HopTime, RightPlace, Topology.Valid, PipeTimely, TxTimely;
    match Taken(T, n, v)
    case NoChoice =>
    case FromLink(k, c) =>
      FromLinkOk(T, sent, n, v, k, c);
      var p := v.rx[k][c].value;
      assert RightPlace(T, sent, k, p) && T.Next(k, p.tgt) == n;
      EnterFromLink(T, sent, k, n, p);
      assert SlotsTimely(g, T, k, v.rx[k], now);
    case FromPort(q, c) =>
      FromPortOk(T, sent, n, v, q, c);
      EnterFromQueue(T, v.ports[q].sendBuf[c][0]);
  }

  lemma PipeInTimely(g: Lag, T: Topology, sent: seq<Message>, n: NodeId, v: View, now: int)
    requires T.Valid() && n in T.nodes && ViewOk(T, sent, n, v) && ViewTimely(g, T, n, v, now)
    ensures PipeTimely(g, T, n, PipeIn(T, n, v), now) && Waits(T, PipeIn(T, n, v))
  {
    hide Entering, Behind, HopTime, ViewOk, Topology.Valid, Sorted;
    EnteringTimely(g, T, sent, n, v, now);
    StepPipeOk(T, sent, n, v);
    var pipe := PipeIn(T, n, v);
    forall i | 0 <= i < |pipe| ensures pipe[i].remain <= T.config.latency {
      assert StaysOk(T, sent, n, pipe[i]);
    }
  }

  // ----- A tick -----

  lemma ViewIsTimely(g: Lag, T: Topology, sent: seq<Message>, s: Net, n: NodeId)
    requires SentOk(T, sent) && Timely(g, T, sent, s) && n in s.nodes
    ensures ViewTimely(g, T, n, GetView(T, s, n), s.tick)
  {
    hide PipeTimely, SlotsTimely, PortTimely, MessagesTimely, GetView;
    var v := GetView(T, s, n);
    ViewBack(T, s, n);
    forall q | q in v.ports ensures PortTimely(g, v.ports[q], s.tick) {
      assert PortTimely(g, s.ports[q], s.tick);
    }
    forall k | k in v.rx ensures SlotsTimely(g, T, k, v.rx[k], s.tick) {
      assert LinkTimely(g, T, k, s.edges[(k, n)], s.tick);
    }
    forall m | m in v.tx ensures SlotsTimely(g, T, n, v.tx[m], s.tick) {
      assert LinkTimely(g, T, n, s.edges[(n, m)], s.tick);
    }
  }

  lemma TickPipeTimely(g: Lag, T: Topology, sent: seq<Message>, s: Net, n: NodeId)
    requires T.Valid() && SentOk(T, sent) && PlacesOk(T, sent, s) && Timely(g, T, sent, s) && n in s.nodes
    ensures n in Tick(T, s).nodes && PipeTimely(g, T, n, Tick(T, s).nodes[n].pipeline, s.tick + 1)
  {
    hide PipeTimely, Timely, PlacesOk, Tick, GetView, PipeIn, Release, Handed, SlotsTimely, ViewOk, Topology.Valid;
    var v := GetView(T, s, n);
    assert n in T.nodes by { WiredNodes(T, sent, s); }
    ViewIsOk(T, sent, s, n);
    ViewIsTimely(g, T, sent, s, n);
    PipeInTimely(g, T, sent, n, v, s.tick);
    TxLater(g, T, n, v.tx, s.tick);
    ReleaseTimely(g, T, n, PipeIn(T, n, v), v.tx, s.tick);
    TickNode(T, s, n);
  }

  lemma TxLater(g: Lag, T: Topology, n: NodeId, tx: map<NodeId, Slots>, now: int)
    requires TxTimely(g, T, n, tx, now)
    ensures TxTimely(g, T, n, tx, now + 1)
  {
    hide LinkStamp;
    forall m | m in tx ensures SlotsTimely(g, T, n, tx[m], now + 1) {
      assert SlotsTimely(g, T, n, tx[m], now);
    }
  }

  lemma RxOutTimely(g: Lag, T: Topology, n: NodeId, v: View, k: NodeId, now: int)
    requires k in v.rx && SlotsTimely(g, T, k, v.rx[k], now)
    ensures k in RxOut(T, n, v) && SlotsTimely(g, T, k, RxOut(T, n, v)[k], now)
  {
    hide Arbitrate, LinkStamp;
  }

  /** Both ends of a link after the node phase. */
  lemma LinkAfterNodes(g: Lag, T: Topology, sent: seq<Message>, s: Net, l: Link)
    requires T.Valid() && SentOk(T, sent) && PlacesOk(T, sent, s) && Timely(g, T, sent, s) && l in s.edges
    ensures l in NodePhase(T, s).edges
    ensures SlotsTimely(g, T, l.0, NodePhase(T, s).edges[l].input, s.tick + 1)
            && SlotsTimely(g, T, l.0, NodePhase(T, s).edges[l].output, s.tick)
  {
    hide PipeTimely, Timely, PlacesOk, NodePhase, GetView, PipeIn, Release, RxOut, SlotsTimely, ViewOk, Topology.Valid;
    LinkEndNodes(T, sent, s, l);
    var v, w := GetView(T, s, l.0), GetView(T, s, l.1);
    ViewIsOk(T, sent, s, l.0);
    ViewIsTimely(g, T, sent, s, l.0);
    ViewIsTimely(g, T, sent, s, l.1);
    PipeInTimely(g, T, sent, l.0, v, s.tick);
    TxLater(g, T, l.0, v.tx, s.tick);
    ReleaseTimely(g, T, l.0, PipeIn(T, l.0, v), v.tx, s.tick);
    ViewLink(T, s, l);
    RxOutTimely(g, T, l.1, w, l.0, s.tick);
    SenderAfter(T, sent, s, l.0, l.1);
    ReceiverAfter(T, sent, s, l.0, l.1);
    NodePhaseKeys(T, s);
  }

  lemma LinkEndNodes(T: Topology, sent: seq<Message>, s: Net, l: Link)
    requires PlacesOk(T, sent, s) && l in s.edges
    ensures l.0 in T.nodes && l.1 in T.nodes && s.nodes.Keys == T.nodes
    ensures |s.edges[l].input| == |s.edges[l].output| == T.Channels()
  {
    hide NodesOk, PortsOk, RightPlace;
    assert EdgeOk(T, sent, l, s.edges[l]);
  }

  lemma TickEdge(T: Topology, s: Net, l: Link)
    requires l in s.edges
    ensures l in NodePhase(T, s).edges && l in Tick(T, s).edges
    ensures Tick(T, s).edges[l] == Transfer(T.config.linkWidth, NodePhase(T, s).edges[l], 0, 0)
  {
    hide InputAfter, OutputAfter, PortAfter, ProcessNode, GetView, Transfer, UpdateCongestion;
  }

  lemma MovedTimely(g: Lag, T: Topology, k: NodeId, e: Edge, e': Edge, now: int)
    requires Moved(e, e') && |e.input| == |e.output| && SlotsTimely(g, T, k, e.input, now)
             && SlotsTimely(g, T, k, e.output, now)
    ensures SlotsTimely(g, T, k, e'.input, now) && SlotsTimely(g, T, k, e'.output, now)
  {
    hide LinkStamp;
  }

  lemma SlotsLater(g: Lag, T: Topology, k: NodeId, slots: Slots, now: int)
    requires SlotsTimely(g, T, k, slots, now)
    ensures SlotsTimely(g, T, k, slots, now + 1)
  {
    hide LinkStamp;
  }

  lemma TickEdgeTimely(g: Lag, T: Topology, sent: seq<Message>, s: Net, l: Link)
    requires T.Valid() && SentOk(T, sent) && PlacesOk(T, sent, s) && Timely(g, T, sent, s) && l in s.edges
    ensures l in Tick(T, s).edges && LinkTimely(g, T, l.0, Tick(T, s).edges[l], s.tick + 1)
  {
    hide Timely, NodePhase, Tick, SlotsTimely, Transfer, PlacesOk, Topology.Valid;
    TickEdge(T, s, l);
    LinkAfterNodes(g, T, sent, s, l);
    NodePhasePlaces(T, sent, s);
    LinkEndNodes(T, sent, NodePhase(T, s), l);
    var e := NodePhase(T, s).edges[l];
    SlotsLater(g, T, l.0, e.output, s.tick);
    TransferMoves(T.config.linkWidth, e, 0, 0);
    MovedTimely(g, T, l.0, e, Tick(T, s).edges[l], s.tick + 1);
  }

  /** A send queue after a tick: unchanged, or without the packet its node has admitted. */
  lemma TickQueue(T: Topology, sent: seq<Message>, s: Net, q: PortId, c: nat)
    requires T.Valid() && PlacesOk(T, sent, s) && q in s.ports && c < T.Channels()
    ensures T.NodeOf(q) in s.nodes
    ensures var taken := Taken(T, T.NodeOf(q), GetView(T, s, T.NodeOf(q)));
            QueueAt(Tick(T, s), q, c) ==
            if taken == FromPort(q, c) && QueueAt(s, q, c) != [] then QueueAt(s, q, c)[1..] else QueueAt(s, q, c)
  {
    hide PlacesOk, Tick, GetView, Taken, Handed, Topology.Valid;
    TickPort(T, sent, s, q);
    ViewPort(T, s, q);
    var n := T.NodeOf(q);
    PoppedQueue(T, n, GetView(T, s, n), q, c);
    PoppedBuffers(T, n, GetView(T, s, n), q);
    HandedQueues(T, n, GetView(T, s, n), q, c);
  }

  lemma PoppedQueue(T: Topology, n: NodeId, v: View, q: PortId, c: nat)
    requires q in v.ports
    ensures q in Popped(T, n, v)
    ensures Queue(Popped(T, n, v)[q], c) == if Taken(T, n, v) == FromPort(q, c) then Queue(v.ports[q], c)[1..]
                                            else Queue(v.ports[q], c)
    ensures Taken(T, n, v) == FromPort(q, c) ==> Queue(v.ports[q], c) != []
  {
    hide Arbitrate;
  }

  lemma TickQueueTimely(g: Lag, T: Topology, sent: seq<Message>, s: Net, q: PortId)
    requires T.Valid() && SentOk(T, sent) && PlacesOk(T, sent, s) && Timely(g, T, sent, s) && q in s.ports
    ensures q in Tick(T, s).ports && PortTimely(g, Tick(T, s).ports[q], s.tick + 1)
  {
    hide Tick, Taken, GetView, Topology.Valid, PlacesOk, PipesTimely, LinksTimely, MessagesTimely;
    TickKeys(T, s);
    TickPlaces(T, sent, s);
    RecvWidth(T, sent, s, q);
    RecvWidth(T, sent, Tick(T, s), q);
    assert PortTimely(g, s.ports[q], s.tick);
    forall c | 0 <= c < T.Channels() ensures QueueTimely(g, Tick(T, s).ports[q].sendBuf[c], s.tick + 1) {
      TickQueue(T, sent, s, q, c);
      assert QueueAt(s, q, c) == s.ports[q].sendBuf[c] && QueueAt(Tick(T, s), q, c) == Tick(T, s).ports[q].sendBuf[c];
      assert QueueTimely(g, s.ports[q].sendBuf[c], s.tick);
      if QueueAt(s, q, c) != [] {
        QueuesStep(T, sent, s, q, c);
      }
    }
  }

  /** Consecutive packets of a send queue have consecutive indices. */
  lemma QueuesStep(T: Topology, sent: seq<Message>, s: Net, q: PortId, c: nat)
    requires PlacesOk(T, sent, s) && QueueAt(s, q, c) != []
    ensures var queue := QueueAt(s, q, c);
            queue[1..] != [] ==>
              queue[1..][0].idx == queue[0].idx + 1 && queue[1..][0].start == queue[0].start
              && queue[1..][0].xmt == queue[0].xmt
  {
    hide NodesOk, EdgesOk, PacketCount, Chunk;
    assert QueuesOk(T, sent, q, s.ports[q]) && QueueOk(T, sent, q, c, s.ports[q].sendBuf[c]);
    var queue := QueueAt(s, q, c);
    var all := Packetize(T, sent[queue[0].xmt], queue[0].xmt);
    if queue[1..] != [] {
      assert queue[1] == all[queue[0].idx..][1] == all[queue[0].idx + 1];
    }
  }

  lemma DeliveredTimely(g: Lag, T: Topology, sent: seq<Message>, s: Net, n: NodeId)
    requires T.Valid() && SentOk(T, sent) && PlacesOk(T, sent, s) && Timely(g, T, sent, s)
    ensures var p := DeliveredAt(T, s, n);
            p.Some? ==>
              && Genuine(T, sent, p.value)
              && ArrivalStamp(T, sent[p.value.xmt], p.value.idx + 1) + LagOf(g, p.value) <= s.tick + 1
  {
    hide Timely, GetView, Topology.Valid, PlacesOk, ViewOk, ViewTimely, Entering, OnPath;
    if n in s.nodes {
      WiredNodes(T, sent, s);
      ViewIsOk(T, sent, s, n);
      ViewIsTimely(g, T, sent, s, n);
      EnteringTimely(g, T, sent, n, GetView(T, s, n), s.tick);
      EnteringOk(T, sent, n, GetView(T, s, n));
      var p := DeliveredAt(T, s, n);
      if p.Some? {
        DistZeroAt(T, n);
        assert Behind(T, n, p.value) == T.Dist(T.NodeOf(p.value.src), n);
      }
    }
  }

  lemma DistZeroAt(T: Topology, n: NodeId)
    ensures T.Dist(n, n) == 0
  {
    if T.Reaches(n, n) {
      HopsUnique(T.nodes, T.route, n, n, Distance(T.nodes, T.route, n, n), 0);
    }
  }

  lemma TickArrivedTimely(g: Lag, T: Topology, sent: seq<Message>, s: Net, x: nat)
    requires T.Valid() && SentOk(T, sent) && PlacesOk(T, sent, s) && FlowsOk(T, sent, s) && Timely(g, T, sent, s)
             && x < |sent|
    ensures var a := Arrived(T, sent, Tick(T, s), x);
            a > 0 ==> ArrivalStamp(T, sent[x], a) + LagAt(g, x, a - 1) <= s.tick + 1
  {
    hide Tick, Arrived, ArrivalStamp, DeliveredAt, Topology.Valid, PlacesOk, FlowsOk, PipesTimely, LinksTimely,
      QueuesTimely, Genuine;
    TickArrived(T, sent, s, x);
    DeliveredTimely(g, T, sent, s, T.NodeOf(sent[x].dst));
  }

  /** A tick keeps every packet within the speed limit. */
  lemma TickTimely(g: Lag, T: Topology, h: History, s: Net)
    requires T.Valid() && Inv(T, h, s) && SentOk(T, h.sent) && Timely(g, T, h.sent, s)
    ensures Timely(g, T, h.sent, Tick(T, s))
  {
    hide Tick, Arrived, ArrivalStamp, Topology.Valid, PlacesOk, FlowsOk, ListsOk, BuffersOk, AllDone, CountersOk,
      CreditOk, PipeTimely, LinkTimely, PortTimely, ArrivedSeq;
    var s' := Tick(T, s);
    TickIds(T, s);
    TickKeys(T, s);
    forall n | n in s'.nodes ensures PipeTimely(g, T, n, s'.nodes[n].pipeline, s'.tick) {
      TickPipeTimely(g, T, h.sent, s, n);
    }
    forall l | l in s'.edges ensures LinkTimely(g, T, l.0, s'.edges[l], s'.tick) {
      TickEdgeTimely(g, T, h.sent, s, l);
    }
    forall q | q in s'.ports ensures PortTimely(g, s'.ports[q], s'.tick) {
      TickQueueTimely(g, T, h.sent, s, q);
    }
    forall x | 0 <= x < |h.sent|
      ensures h.sent[x].start <= s'.tick
      ensures var a := Arrived(T, h.sent, s', x);
              a > 0 ==> ArrivalStamp(T, h.sent[x], a) + LagAt(g, x, a - 1) <= s'.tick
    {
      TickArrivedTimely(g, T, h.sent, s, x);
    }
  }
}
