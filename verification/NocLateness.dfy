/** A lone message that the buffers are too small for: the first node fills up, and the rest of the message is late. */
module NocLateness {
  import opened RouteTable
  import opened Wrappers
  import opened NocState
  import opened NocInvariant
  import opened NocNodeStep
  import opened NocFlow
  import opened NocHistory
  import opened NocSystem
  import opened NocTick
  import opened NocConservation
  import opened NocProgress
  import opened NocTiming
  import opened NocExact

  /** `j` packets of message `x` wait at the node it is sent from, and the others in its queue. */
  ghost predicate Filling(T: Topology, sent: seq<Message>, s: Net, x: nat, j: nat)
    requires x < |sent| && MessageOk(T, sent[x])
  {
    var m := sent[x];
    && Punctual(T, s, x) && s.tick == m.start + j && m.src in s.ports && T.NodeOf(m.src) in s.nodes
    && j <= Count(T, m) && QueueAt(s, m.src, m.cha) == Packetize(T, m, x)[j..]
    && |s.nodes[T.NodeOf(m.src)].pipeline| == j
  }

  /** The other side of having room: the message has hops to make, and the buffers hold too little of it. */
  lemma NotRoomy(T: Topology, m: Message)
    requires MessageOk(T, m) && !Roomy(T, m)
    ensures T.config.congestion.enabled && Hops(T, m) > 0
    ensures T.config.congestion.limit <= T.config.latency && T.config.congestion.limit < Count(T, m)
  {
  }

  /** As long as there is room, a packet comes in every tick, and none leaves. */
  lemma {:induction false} ReleaseNone(T: Topology, n: NodeId, pipe: seq<Piped>, tx: map<NodeId, Slots>)
    requires forall i :: 0 <= i < |pipe| ==> pipe[i].remain > 0
    ensures |Release(T, n, pipe, tx).0| == |pipe|
    decreases |pipe|
  {
    if pipe != [] {
      ReleaseNone(T, n, pipe[1..], Filled(T, n, pipe[0], tx));
    }
  }

  /** No packet has come further in the message than ticks have passed. */
  lemma NodesOpenYet(T: Topology, h: History, s: Net, x: nat, j: nat)
    requires T.Valid() && Inv(T, h, s) && SentOk(T, h.sent) && x < |h.sent| && Punctual(T, s, x)
    requires s.tick == h.sent[x].start + j && j < T.config.congestion.limit
    ensures AllOpen(T, s)
  {
    hide Inv, GetView, Chosen, Topology.Valid, Punctual, Arbitrate, Open, ViewOk, ViewPunctual, PlacesOk, PacketCount,
      HopTime, OnPath;
    InvPlaces(T, h, s);
    forall n | n in s.nodes ensures Open(T, n, GetView(T, s, n)) {
      var choice := Arbitrate(T.Rxs(n), T.Attached(n), GetView(T, s, n)).choice;
      if Chosen(GetView(T, s, n), choice).Some? {
        ViewIsOk(T, h.sent, s, n);
        ViewIsPunctual(T, s, n, x);
        OfferedPunctual(T, h.sent, n, GetView(T, s, n), x, s.tick, choice);
      }
      NodeOpen(T, h, s, n, x);
    }
  }

  /** The packet at the front of the message's queue. */
  lemma FrontPacket(T: Topology, sent: seq<Message>, s: Net, x: nat, j: nat)
    requires T.Valid() && x < |sent| && MessageOk(T, sent[x]) && Filling(T, sent, s, x, j) && j < Count(T, sent[x])
    requires Hops(T, sent[x]) > 0
    ensures var m := sent[x];
            && QueueAt(s, m.src, m.cha) != [] && QueueAt(s, m.src, m.cha)[0] == MakePacket(T, m, x, j)
            && QueueAt(s, m.src, m.cha)[1..] == Packetize(T, m, x)[j + 1..]
            && MakePacket(T, m, x, j).tgt != T.NodeOf(m.src)
  {
    hide Punctual, Chunk, PacketCount;
    DistZeroAt(T, T.NodeOf(sent[x].src));
    assert Packetize(T, sent[x], x)[j..][1..] == Packetize(T, sent[x], x)[j + 1..];
  }

  /** The waits of the packets at the first node: the first one came in `j` ticks ago. */
  lemma FirstNodeWaits(T: Topology, h: History, s: Net, x: nat, j: nat)
    requires T.Valid() && Inv(T, h, s) && SentOk(T, h.sent) && x < |h.sent| && Punctual(T, s, x)
    requires s.tick == h.sent[x].start + j && j < T.config.latency
    requires T.NodeOf(h.sent[x].src) in s.nodes
    ensures var n := T.NodeOf(h.sent[x].src);
            var pipe := PipeIn(T, n, GetView(T, s, n));
            forall i :: 0 <= i < |pipe| ==> pipe[i].remain > 0
  {
    hide Inv, GetView, PipeIn, Topology.Valid, Punctual, PlacesOk, ViewOk, ViewPunctual, PipeOk, Genuine, HopTime;
    var n := T.NodeOf(h.sent[x].src);
    InvPlaces(T, h, s);
    ViewIsOk(T, h.sent, s, n);
    ViewIsPunctual(T, s, n, x);
    PipeInPunctual(T, h.sent, n, GetView(T, s, n), x, s.tick);
    StepPipeOk(T, h.sent, n, GetView(T, s, n));
    var pipe := PipeIn(T, n, GetView(T, s, n));
    forall i | 0 <= i < |pipe| ensures pipe[i].remain > 0 {
      WaitAtOrigin(T, h.sent, n, pipe, i, x);
    }
  }

  lemma WaitAtOrigin(T: Topology, sent: seq<Message>, n: NodeId, pipe: seq<Piped>, i: nat, x: nat)
    requires PipeOk(T, sent, n, pipe) && i < |pipe| && pipe[i].pack.xmt == x < |sent| && n == T.NodeOf(sent[x].src)
    ensures PipeStamp(T, n, pipe[i]) == sent[x].start + pipe[i].pack.idx + (T.config.latency - pipe[i].remain)
  {
    hide OnPath, PacketCount, Sorted;
    assert StaysOk(T, sent, n, pipe[i]);
    EnterFromQueue(T, pipe[i].pack);
  }

  lemma TickFills(T: Topology, h: History, s: Net, x: nat, j: nat)
    requires T.Valid() && Inv(T, h, s) && SentOk(T, h.sent) && x < |h.sent| && Filling(T, h.sent, s, x, j)
    requires !Roomy(T, h.sent[x]) && j < T.config.congestion.limit
    ensures Filling(T, h.sent, Tick(T, s), x, j + 1)
  {
    hide Inv, Tick, Topology.Valid, Punctual, Packetize, PacketCount, AllOpen, GetView, Taken, PlacesOk, Release,
      Roomy, Hops;
    var m := h.sent[x];
    var n := T.NodeOf(m.src);
    NotRoomy(T, m);
    InvPlaces(T, h, s);
    NodesOpenYet(T, h, s, x, j);
    TickPunctual(T, h, s, x);
    TickIds(T, s);
    TickKeys(T, s);
    FrontPacket(T, h.sent, s, x, j);
    QueueTaken(T, h, s, m.src, m.cha, x);
    TickQueue(T, h.sent, s, m.src, m.cha);
    PipeGrows(T, h.sent, s, m.src, m.cha);
    FirstNodeWaits(T, h, s, x, j);
    ReleaseNone(T, n, PipeIn(T, n, GetView(T, s, n)), GetView(T, s, n).tx);
    TickNode(T, s, n);
  }

  lemma PipeGrows(T: Topology, sent: seq<Message>, s: Net, q: PortId, c: nat)
    requires T.Valid() && PlacesOk(T, sent, s) && q in s.ports && T.NodeOf(q) in s.nodes
    requires Taken(T, T.NodeOf(q), GetView(T, s, T.NodeOf(q))) == FromPort(q, c)
    requires QueueAt(s, q, c) != [] && QueueAt(s, q, c)[0].tgt != T.NodeOf(q)
    ensures |PipeIn(T, T.NodeOf(q), GetView(T, s, T.NodeOf(q)))| == |s.nodes[T.NodeOf(q)].pipeline| + 1
  {
    hide GetView, Taken, PlacesOk, ViewOk, Topology.Valid, QueueOk;
    var n := T.NodeOf(q);
    WiredNodes(T, sent, s);
    ViewIsOk(T, sent, s, n);
    FromPortOk(T, sent, n, GetView(T, s, n), q, c);
    ViewPort(T, s, q);
    ViewNode(T, s, n);
  }

  /** A full node takes nothing: the queue stays as it is. */
  lemma Refused(T: Topology, h: History, s: Net, x: nat)
    requires T.Valid() && Inv(T, h, s) && SentOk(T, h.sent) && x < |h.sent| && !Roomy(T, h.sent[x])
    requires Filling(T, h.sent, s, x, T.config.congestion.limit)
    ensures var m := h.sent[x]; QueueAt(Tick(T, s), m.src, m.cha) == QueueAt(s, m.src, m.cha)
  {
    hide Inv, Tick, Topology.Valid, Punctual, Packetize, PacketCount, GetView, Taken, PlacesOk, Roomy, Hops;
    var m := h.sent[x];
    NotRoomy(T, m);
    InvPlaces(T, h, s);
    FrontPacket(T, h.sent, s, x, T.config.congestion.limit);
    TickQueue(T, h.sent, s, m.src, m.cha);
    CounterIs(T, h, s, T.NodeOf(m.src));
    NoRoomFor(T, h.sent, s, m.src, m.cha);
  }

  lemma NoRoomFor(T: Topology, sent: seq<Message>, s: Net, q: PortId, c: nat)
    requires T.Valid() && PlacesOk(T, sent, s) && q in s.ports && T.NodeOf(q) in s.nodes && QueueAt(s, q, c) != []
    requires T.config.congestion.enabled && s.nodes[T.NodeOf(q)].buffered >= T.config.congestion.limit
    requires QueueAt(s, q, c)[0].tgt != T.NodeOf(q)
    ensures Taken(T, T.NodeOf(q), GetView(T, s, T.NodeOf(q))) != FromPort(q, c)
  {
    hide GetView, PlacesOk, Arbitrate, Topology.Valid;
    ViewPort(T, s, q);
    ViewNode(T, s, T.NodeOf(q));
  }

  // ----- Then the rest of the message is late -----

  /** The packets of message `x` from index `from` on are still in its queue. */
  ghost predicate Backlog(T: Topology, sent: seq<Message>, s: Net, x: nat, from: nat) {
    x < |sent| && MessageOk(T, sent[x]) &&
    var all := Packetize(T, sent[x], x);
    from < |all| && QueueAt(s, sent[x].src, sent[x].cha) == all[from..]
  }

  /** What is in a queue is nowhere else. */
  lemma StillQueued(T: Topology, h: History, s: Net, x: nat, from: nat, pl: Place, p: Packet)
    requires T.Valid() && Inv(T, h, s) && Backlog(T, h.sent, s, x, from)
    requires Travelling(pl) && !pl.Queued? && At(s, pl) == Some(p) && Genuine(T, h.sent, p) && p.xmt == x
    ensures p.idx < from
  {
    hide Inv, Topology.Valid, Chunk, PacketCount;
    var m := h.sent[x];
    if from <= p.idx {
      assert Packetize(T, m, x)[from..][p.idx - from] == MakePacket(T, m, x, p.idx);
      OneTravellingPlace(T, h, s, pl, Queued(m.src, m.cha, p.idx - from), p);
    }
  }

  lemma PipesLate(T: Topology, h: History, s: Net, x: nat, from: nat, n: NodeId)
    requires T.Valid() && Inv(T, h, s) && Backlog(T, h.sent, s, x, from) && n in s.nodes
    requires PipeTimely(NoLag, T, n, s.nodes[n].pipeline, s.tick)
    ensures PipeTimely(Late(x, from), T, n, s.nodes[n].pipeline, s.tick)
  {
    hide Inv, Topology.Valid, Backlog, Genuine, At, PlacesOk, PipeStamp;
    InvPlaces(T, h, s);
    var pipe := s.nodes[n].pipeline;
    forall i | 0 <= i < |pipe| ensures PipeStamp(T, n, pipe[i]) + LagOf(Late(x, from), pipe[i].pack) <= s.tick {
      PipelineOk(T, h.sent, s, n, i);
      PipePlaceAt(s, n, i);
      if pipe[i].pack.xmt == x {
        StillQueued(T, h, s, x, from, Piping(n, i), pipe[i].pack);
      }
    }
  }

  lemma LinksLate(T: Topology, h: History, s: Net, x: nat, from: nat, l: Link)
    requires T.Valid() && Inv(T, h, s) && Backlog(T, h.sent, s, x, from) && l in s.edges
    requires LinkTimely(NoLag, T, l.0, s.edges[l], s.tick)
    ensures LinkTimely(Late(x, from), T, l.0, s.edges[l], s.tick)
  {
    hide Inv, Topology.Valid, Backlog, Genuine, PlacesOk, LinkStamp;
    InvPlaces(T, h, s);
    var e := s.edges[l];
    forall c | 0 <= c < |e.input| && e.input[c].Some?
      ensures LinkStamp(T, l.0, e.input[c].value) + LagOf(Late(x, from), e.input[c].value) <= s.tick
    {
      LinkGenuine(T, h.sent, s, l, e.input, c);
      if e.input[c].value.xmt == x {
        StillQueued(T, h, s, x, from, OnInput(l, c), e.input[c].value);
      }
    }
    forall c | 0 <= c < |e.output| && e.output[c].Some?
      ensures LinkStamp(T, l.0, e.output[c].value) + LagOf(Late(x, from), e.output[c].value) <= s.tick
    {
      LinkGenuine(T, h.sent, s, l, e.output, c);
      if e.output[c].value.xmt == x {
        StillQueued(T, h, s, x, from, OnOutput(l, c), e.output[c].value);
      }
    }
  }

  lemma LinkGenuine(T: Topology, sent: seq<Message>, s: Net, l: Link, slots: Slots, c: nat)
    requires PlacesOk(T, sent, s) && l in s.edges && (slots == s.edges[l].input || slots == s.edges[l].output)
    requires c < |slots| && slots[c].Some?
    ensures Genuine(T, sent, slots[c].value)
  {
    hide NodesOk, PortsOk, OnPath, Genuine;
    assert EdgeOk(T, sent, l, s.edges[l]);
    assert RightPlace(T, sent, l.0, slots[c].value);
  }

  lemma QueuesLate(T: Topology, h: History, s: Net, x: nat, from: nat, q: PortId)
    requires T.Valid() && Inv(T, h, s) && Backlog(T, h.sent, s, x, from) && q in s.ports
    requires PortTimely(NoLag, s.ports[q], s.tick) && h.sent[x].start + from < s.tick
    ensures PortTimely(Late(x, from), s.ports[q], s.tick)
  {
    hide Inv, Topology.Valid, Chunk, PacketCount, PlacesOk;
    InvPlaces(T, h, s);
    forall c | 0 <= c < |s.ports[q].sendBuf| ensures QueueTimely(Late(x, from), s.ports[q].sendBuf[c], s.tick) {
      assert QueueTimely(NoLag, s.ports[q].sendBuf[c], s.tick);
      if s.ports[q].sendBuf[c] != [] {
        QueueGenuine(T, h.sent, s, q, c);
      }
    }
  }

  lemma QueueGenuine(T: Topology, sent: seq<Message>, s: Net, q: PortId, c: nat)
    requires PlacesOk(T, sent, s) && q in s.ports && c < |s.ports[q].sendBuf| && s.ports[q].sendBuf[c] != []
    ensures var p := s.ports[q].sendBuf[c][0];
            Genuine(T, sent, p) && p.src == q && p.cha == c && QueueAt(s, q, c) == s.ports[q].sendBuf[c]
  {
    hide NodesOk, EdgesOk, Genuine;
    assert QueuesOk(T, sent, q, s.ports[q]) && QueueOk(T, sent, q, c, s.ports[q].sendBuf[c]);
  }

  /** Nothing of the message has arrived by then. */
  lemma NothingArrived(T: Topology, sent: seq<Message>, s: Net, x: nat)
    requires SentOk(T, sent) && x < |sent| && MessagesTimely(NoLag, T, sent, s) && Hops(T, sent[x]) > 0
    requires s.tick <= sent[x].start + T.config.latency + 1
    ensures Arrived(T, sent, s, x) == 0
  {
    hide Arrived;
    HopTimeMonotone(T, 1, Hops(T, sent[x]));
  }

  lemma BecomesLate(T: Topology, h: History, s: Net, x: nat, from: nat)
    requires T.Valid() && Inv(T, h, s) && SentOk(T, h.sent) && Timely(NoLag, T, h.sent, s)
             && Backlog(T, h.sent, s, x, from)
    requires s.tick == h.sent[x].start + from + 1 && from <= T.config.latency && Hops(T, h.sent[x]) > 0
    ensures Timely(Late(x, from), T, h.sent, s)
  {
    hide Inv, Topology.Valid, Packetize, PacketCount, PipeTimely, LinkTimely, PortTimely, Arrived, ArrivalStamp;
    NothingArrived(T, h.sent, s, x);
    forall n | n in s.nodes ensures PipeTimely(Late(x, from), T, n, s.nodes[n].pipeline, s.tick) {
      PipesLate(T, h, s, x, from, n);
    }
    forall l | l in s.edges ensures LinkTimely(Late(x, from), T, l.0, s.edges[l], s.tick) {
      LinksLate(T, h, s, x, from, l);
    }
    forall q | q in s.ports ensures PortTimely(Late(x, from), s.ports[q], s.tick) {
      QueuesLate(T, h, s, x, from, q);
    }
    assert MessagesTimely(Late(x, from), T, h.sent, s);
  }

  lemma {:induction false} TicksTimely(g: Lag, T: Topology, h: History, s: Net, n: nat)
    requires T.Valid() && Inv(T, h, s) && SentOk(T, h.sent) && Timely(g, T, h.sent, s)
    ensures Inv(T, h, Ticks(T, s, n)) && Timely(g, T, h.sent, Ticks(T, s, n)) && Ticks(T, s, n).tick == s.tick + n
    decreases n
  {
    hide Inv, Tick, Topology.Valid, Timely;
    if n > 0 {
      TickInv(T, h, s);
      TickTimely(g, T, h, s);
      TickIds(T, s);
      TicksTimely(g, T, h, Tick(T, s), n - 1);
    }
  }

  /** So from the first refusal on, the packets that have not left are one tick behind the speed limit, to the end. */
  lemma {:induction false} FillsUp(T: Topology, h: History, s: Net, x: nat, j: nat, n: nat)
    requires T.Valid() && Inv(T, h, s) && SentOk(T, h.sent) && Timely(NoLag, T, h.sent, s) && x < |h.sent|
    requires !Roomy(T, h.sent[x]) && Filling(T, h.sent, s, x, j) && j <= T.config.congestion.limit < j + n
    ensures var s' := Ticks(T, s, n);
            && Inv(T, h, s') && Timely(Late(x, T.config.congestion.limit), T, h.sent, s') && s'.tick == s.tick + n
    decreases n
  {
    hide Inv, Tick, Topology.Valid, Timely, Filling, Roomy, Backlog, Count, Packetize, Hops;
    var s' := Tick(T, s);
    TickInv(T, h, s);
    TickTimely(NoLag, T, h, s);
    TickIds(T, s);
    if j < T.config.congestion.limit {
      TickFills(T, h, s, x, j);
      FillsUp(T, h, s', x, j + 1, n - 1);
    } else {
      NotRoomy(T, h.sent[x]);
      Refused(T, h, s, x);
      FullQueue(T, h.sent, s, s', x, j);
      BecomesLate(T, h, s', x, j);
      TicksTimely(Late(x, j), T, h, s', n - 1);
    }
  }

  lemma FullQueue(T: Topology, sent: seq<Message>, s: Net, s': Net, x: nat, j: nat)
    requires x < |sent| && MessageOk(T, sent[x]) && Filling(T, sent, s, x, j)
    ensures s.tick == sent[x].start + j
    ensures j < Count(T, sent[x]) && QueueAt(s', sent[x].src, sent[x].cha) == QueueAt(s, sent[x].src, sent[x].cha) ==>
              Backlog(T, sent, s', x, j)
  {
    hide Punctual, Chunk, PacketCount;
  }
}
