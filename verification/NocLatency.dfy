/** How long messages take: a lower bound over all runs, met exactly by a message that travels alone. */
module NocLatency {
  import opened Arith
  import opened Wrappers
  import opened RouteTable
  import opened NocState
  import opened NocInvariant
  import opened NocHistory
  import opened NocReassembly
  import opened NocSystem
  import opened NocTick
  import opened NocEndpoints
  import opened NocConservation
  import opened NocRuns
  import opened NocProgress
  import opened NocTiming
  import opened NocExact
  import opened NocLateness

  // ----- The speed limit over all runs -----

  lemma AcceptTimely(T: Topology, h: History, s: Net, m: Message)
    requires T.Valid() && Inv(T, h, s) && SentOk(T, h.sent) && Timely(NoLag, T, h.sent, s) && Acceptable(T, h, s, m)
    ensures SentOk(T, h.sent + [m]) && Timely(NoLag, T, h.sent + [m], Accept(T, s, m))
  {
    hide Inv, Accept, Topology.Valid, PlacesOk, FlowsOk, PipeTimely, LinkTimely, PortTimely, Arrived, ArrivalStamp,
      Acceptable, ArrivedSeq;
    InvPlaces(T, h, s);
    AcceptableOk(T, h, s, m);
    AcceptFrame(T, s, m);
    AcceptCounts(T, h, s, m);
    AcceptPorts(T, h, s, m);
  }

  lemma AcceptPorts(T: Topology, h: History, s: Net, m: Message)
    requires PlacesOk(T, h.sent, s) && Acceptable(T, h, s, m) && QueuesTimely(NoLag, s)
    ensures QueuesTimely(NoLag, Accept(T, s, m))
  {
    hide Accept, NodesOk, EdgesOk, PacketCount, Chunk;
    AcceptableOk(T, h, s, m);
    AcceptFrame(T, s, m);
    var s' := Accept(T, s, m);
    forall q | q in s'.ports ensures PortTimely(NoLag, s'.ports[q], s'.tick) {
      AcceptedPort(T, h, s, m, q);
      RecvWidth(T, h.sent, s, q);
      assert PortTimely(NoLag, s.ports[q], s.tick);
    }
  }

  lemma AcceptCounts(T: Topology, h: History, s: Net, m: Message)
    requires T.Valid() && Inv(T, h, s) && SentOk(T, h.sent) && Acceptable(T, h, s, m)
             && MessagesTimely(NoLag, T, h.sent, s)
    ensures SentOk(T, h.sent + [m]) && MessagesTimely(NoLag, T, h.sent + [m], Accept(T, s, m))
  {
    hide Accept, Topology.Valid, PlacesOk, FlowsOk, ListsOk, BuffersOk, AllDone, CountersOk, CreditOk, Arrived,
      ArrivalStamp;
    AcceptArrived(T, h, s, m);
    AcceptFrame(T, s, m);
    var sent', s' := h.sent + [m], Accept(T, s, m);
    var arr' := ArrivedSeq(T, sent', s');
    forall x | 0 <= x < |sent'|
      ensures sent'[x].start <= s'.tick
      ensures Arrived(T, sent', s', x) > 0 ==> ArrivalStamp(T, sent'[x], Arrived(T, sent', s', x)) <= s'.tick
    {
      assert arr'[x] == Arrived(T, sent', s', x);
    }
  }

  lemma TakeTimely(T: Topology, h: History, s: Net, q: PortId, c: nat)
    requires T.Valid() && Inv(T, h, s) && SentOk(T, h.sent) && Timely(NoLag, T, h.sent, s) && CanRecv(s, q, c)
             && q in s.ports
             && c < T.Channels()
    ensures Timely(NoLag, T, h.sent, TakeFront(T, s, q, c))
  {
    hide TakeFront, Topology.Valid, PlacesOk, FlowsOk, ListsOk, BuffersOk, AllDone, CountersOk, CreditOk, PipeTimely,
      LinkTimely, QueueTimely, Arrived, ArrivalStamp, CanRecv;
    TakeFrame(T, h.sent, s, q, c);
    TakeFlows(T, h.sent, s, q, c);
    var s' := TakeFront(T, s, q, c);
    var arr, arr' := ArrivedSeq(T, h.sent, s), ArrivedSeq(T, h.sent, s');
    forall x | 0 <= x < |h.sent| ensures Arrived(T, h.sent, s', x) == Arrived(T, h.sent, s, x) {
      assert arr'[x] == arr[x];
    }
    forall p | p in s'.ports ensures PortTimely(NoLag, s'.ports[p], s'.tick) {
      assert PortTimely(NoLag, s.ports[p], s.tick) && SameShape(s.ports[p], s'.ports[p]);
    }
  }

  ghost predicate GoodAndTimely(T: Topology, st: State) {
    Good(T, st) && SentOk(T, st.hist.sent) && Timely(NoLag, T, st.hist.sent, st.net)
  }

  lemma InitialTimely(T: Topology)
    requires T.Valid()
    ensures GoodAndTimely(T, Initial(T))
  {
    hide PipeStamp, LinkStamp, Good, Topology.Valid;
    InitialGood(T);
  }

  lemma StepTimely(T: Topology, st: State, op: Op)
    requires T.Valid() && GoodAndTimely(T, st) && OpFits(T, st, op) && Wired(T, st.net)
    ensures GoodAndTimely(T, Step(T, st, op))
  {
    hide Inv, Timely, Tick, Accept, TakeFront, Topology.Valid, Acceptable, SendOutcome, CanRecv;
    StepKeeps(T, st, op);
    InvSent(T, Step(T, st, op).hist, Step(T, st, op).net);
    if op.TickOp? {
      TickTimely(NoLag, T, st.hist, st.net);
    } else if Accepted(T, st, op) {
      AcceptedIsAcceptable(T, st, op);
      AcceptTimely(T, st.hist, st.net, MessageOf(st, op));
    } else if Handing(T, st, op) {
      TakeTimely(T, st.hist, st.net, op.port, op.cha);
    }
  }

  lemma {:induction false} RunTimely(T: Topology, st: State, ops: seq<Op>)
    requires T.Valid() && GoodAndTimely(T, st) && RunFits(T, st, ops)
    ensures GoodAndTimely(T, Run(T, st, ops))
    decreases |ops|
  {
    hide Inv, Timely, Step, OpFits, Topology.Valid;
    if ops != [] {
      InvPlaces(T, st.hist, st.net);
      StepKeeps(T, st, ops[0]);
      StepTimely(T, st, ops[0]);
      RunTimely(T, Step(T, st, ops[0]), ops[1..]);
    }
  }

  /** Message `x` is ready to be received at its port, or has been received. */
  ghost predicate Available(h: History, s: Net, x: nat)
    requires x < |h.sent|
  {
    x in h.received || x in ReadyIds(RecvAt(s, h.sent[x].dst, h.sent[x].cha))
  }

  /** A message is available exactly when all of its packets have arrived. */
  lemma AvailableIff(T: Topology, h: History, s: Net, x: nat)
    requires T.Valid() && Inv(T, h, s) && SentOk(T, h.sent) && x < |h.sent|
    ensures Available(h, s, x) <==> Arrived(T, h.sent, s, x) == Count(T, h.sent[x])
  {
    hide PlacesOk, FlowsOk, ListsOk, BuffersOk, CountersOk, CreditOk, Arrived, OfIds, ReadyIds, RecvAt, Topology.Valid;
    var f, arr := MessageFlow(h.sent[x]), ArrivedSeq(T, h.sent, s);
    MessageFlowOk(T, h.sent[x]);
    var ready := ReadyIds(RecvAt(s, f.dst, f.cha));
    assert DoneOk(T, h, arr, ready, f);
    OfIdsMember(h.sent, h.received, f, x);
    OfIdsMember(h.sent, ready, f, x);
    assert x in DoneIds(h, ready, f) <==> Complete(T, h.sent, arr, f, x);
  }

  /**
   In every run, a message of `k` packets over `h` hops is not available before `k + h * (latency + 1)` ticks
   have passed since it was sent, whatever else the network carries.
   */
  lemma NeverEarly(T: Topology, ops: seq<Op>, x: nat)
    requires T.Valid() && RunFits(T, Initial(T), ops)
    ensures Good(T, Initial(T))
    ensures var st := Run(T, Initial(T), ops);
            && SentOk(T, st.hist.sent)
            && (x < |st.hist.sent| && Available(st.hist, st.net, x) ==>
                  var m := st.hist.sent[x];
                  m.start + Count(T, m) + Hops(T, m) * (T.config.latency + 1) <= st.net.tick)
  {
    hide Timely, Inv, Topology.Valid, Initial, RunFits, Available;
    InitialTimely(T);
    RunTimely(T, Initial(T), ops);
    var st := Run(T, Initial(T), ops);
    if x < |st.hist.sent| && Available(st.hist, st.net, x) {
      NotEarly(NoLag, T, st, x);
    }
  }

  lemma NotEarly(g: Lag, T: Topology, st: State, x: nat)
    requires T.Valid() && Good(T, st) && SentOk(T, st.hist.sent) && Timely(g, T, st.hist.sent, st.net)
    requires x < |st.hist.sent| && Available(st.hist, st.net, x)
    ensures var m := st.hist.sent[x];
            m.start + Count(T, m) + Hops(T, m) * (T.config.latency + 1) + LagAt(g, x, Count(T, m) - 1) <= st.net.tick
  {
    hide Inv, Topology.Valid, Available, Arrived, PipesTimely, LinksTimely, QueuesTimely;
    AvailableIff(T, st.hist, st.net, x);
    HopTimeIs(T, Hops(T, st.hist.sent[x]));
  }

  // ----- A message that travels alone -----

  /** Nothing is on its way anywhere. */
  ghost predicate Quiet(s: Net) {
    && (forall n {:trigger s.nodes[n]} :: n in s.nodes ==> s.nodes[n].pipeline == [])
    && (forall l {:trigger s.edges[l]} :: l in s.edges ==>
                                            SlotsEmpty(s.edges[l].input) && SlotsEmpty(s.edges[l].output))
    && (forall q {:trigger s.ports[q]} :: q in s.ports ==>
                                            forall c :: 0 <= c < |s.ports[q].sendBuf| ==> s.ports[q].sendBuf[c] == [])
  }

  lemma AcceptPunctual(T: Topology, h: History, s: Net, m: Message)
    requires T.Valid() && Inv(T, h, s) && Quiet(s) && Acceptable(T, h, s, m)
    ensures Punctual(T, Accept(T, s, m), |h.sent|)
  {
    hide Inv, Accept, PacketCount, Chunk, Topology.Valid, PlacesOk;
    InvPlaces(T, h, s);
    NextId(T, h, s);
    AcceptableOk(T, h, s, m);
    AcceptFrame(T, s, m);
    var s' := Accept(T, s, m);
    forall q | q in s'.ports ensures PortPunctual(s'.ports[q], |h.sent|, s'.tick) {
      PortsAreOk(T, h.sent, s);
      AcceptedPort(T, h, s, m, q);
      RecvWidth(T, h.sent, s, q);
    }
  }

  lemma PortsAreOk(T: Topology, sent: seq<Message>, s: Net)
    requires PlacesOk(T, sent, s)
    ensures PortsOk(T, sent, s)
  {
  }

  lemma NextId(T: Topology, h: History, s: Net)
    requires Inv(T, h, s)
    ensures s.nextXmt == |h.sent| && SentOk(T, h.sent)
  {
  }

  /** A packet of the lone message that is still travelling is at most as late as the last one may be. */
  lemma StillTravelling(T: Topology, h: History, s: Net, x: nat, pl: Place, p: Packet)
    requires T.Valid() && Inv(T, h, s) && Punctual(T, s, x) && Travelling(pl) && At(s, pl) == Some(p)
    ensures Genuine(T, h.sent, p) && s.tick <= p.start + p.idx + HopTime(T, T.Dist(T.NodeOf(p.src), p.tgt))
  {
    hide Inv, PlacesOk, Topology.Valid, RightPlace, Genuine;
    InvPlaces(T, h, s);
    if pl.Queued? {
      QueuedOk(T, h.sent, s, pl.q, pl.c, pl.i, p);
      assert PortPunctual(s.ports[pl.q], x, s.tick) && QueuePunctual(s.ports[pl.q].sendBuf[pl.c], x, s.tick);
      QueuedStart(T, h.sent, s, pl.q, pl.c, pl.i, p);
    } else {
      TravellerStage(T, h.sent, s, pl, p);
      var n := Stage(pl);
      BehindLess(T, h.sent, n, p);
      HopTimeMonotone(T, Behind(T, n, p) + 1, T.Dist(T.NodeOf(p.src), p.tgt));
      match pl
      case Piping(_, i) => assert PipePunctual(T, n, s.nodes[n].pipeline, x, s.tick);
      case OnInput(l, c) => NoInputs(T, s, x, l, c);
      case OnOutput(l, c) => assert LinkPunctual(T, n, s.edges[l], x, s.tick);
    }
  }

  lemma NoInputs(T: Topology, s: Net, x: nat, l: Link, c: nat)
    requires Punctual(T, s, x)
    ensures At(s, OnInput(l, c)) == None
  {
    hide PipePunctual, PortPunctual, SlotsPunctual;
    if l in s.edges {
      assert LinkPunctual(T, l.0, s.edges[l], x, s.tick);
    }
  }

  lemma QueuedStart(T: Topology, sent: seq<Message>, s: Net, q: PortId, c: nat, i: nat, p: Packet)
    requires PlacesOk(T, sent, s) && At(s, Queued(q, c, i)) == Some(p)
    ensures QueueAt(s, q, c) != [] && p.start == QueueAt(s, q, c)[0].start
  {
    hide NodesOk, EdgesOk, PacketCount, Chunk;
    QueuedOk(T, sent, s, q, c, i, p);
    QueuedOk(T, sent, s, q, c, 0, QueueAt(s, q, c)[0]);
  }

  lemma BehindLess(T: Topology, sent: seq<Message>, n: NodeId, p: Packet)
    requires T.Valid() && n in T.nodes && RightPlace(T, sent, n, p)
    ensures Genuine(T, sent, p) && Behind(T, n, p) + 1 <= T.Dist(T.NodeOf(p.src), p.tgt)
  {
    hide OnPath;
    PacketTargetNode(T, sent, n, p);
    Hop(T, n, p.tgt);
    OnPathDist(T, T.NodeOf(p.src), n, p.tgt);
  }

  lemma PunctualArrives(T: Topology, h: History, s: Net, x: nat)
    requires T.Valid() && Inv(T, h, s) && SentOk(T, h.sent) && x < |h.sent| && Punctual(T, s, x)
    requires var m := h.sent[x]; m.start + Count(T, m) + HopTime(T, Hops(T, m)) <= s.tick
    ensures Arrived(T, h.sent, s, x) == Count(T, h.sent[x])
  {
    hide Inv, At, Arrived, Punctual, PacketCount, Chunk, Topology.Valid;
    var m := h.sent[x];
    if Arrived(T, h.sent, s, x) < Count(T, m) {
      LastTravels(T, h, s, x);
    }
    ArrivedAtMost(T, h.sent, s, x);
  }

  lemma ArrivedAtMost(T: Topology, sent: seq<Message>, s: Net, x: nat)
    requires x < |sent| && MessageOk(T, sent[x])
    ensures Arrived(T, sent, s, x) <= Count(T, sent[x])
  {
  }

  lemma LastTravels(T: Topology, h: History, s: Net, x: nat)
    requires T.Valid() && Inv(T, h, s) && SentOk(T, h.sent) && x < |h.sent| && Punctual(T, s, x)
    requires Arrived(T, h.sent, s, x) < Count(T, h.sent[x])
    ensures var m := h.sent[x]; s.tick < m.start + Count(T, m) + HopTime(T, Hops(T, m))
  {
    hide Inv, At, Arrived, Punctual, PacketCount, Chunk, Topology.Valid, Genuine;
    var m := h.sent[x];
    var i := Count(T, m) - 1;
    UnarrivedInTransit(T, h, s, x, i);
    var p := MakePacket(T, m, x, i);
    var pl := TransitPlace(T, s, MessageFlow(m), p);
    StillTravelling(T, h, s, x, pl, p);
  }

  lemma {:induction false} TicksPunctual(T: Topology, h: History, s: Net, x: nat, n: nat)
    requires T.Valid() && Inv(T, h, s) && SentOk(T, h.sent) && Timely(NoLag, T, h.sent, s) && Punctual(T, s, x)
             && x < |h.sent| && Roomy(T, h.sent[x])
    ensures var s' := Ticks(T, s, n);
            Inv(T, h, s') && Timely(NoLag, T, h.sent, s') && Punctual(T, s', x) && s'.tick == s.tick + n
    decreases n
  {
    hide Inv, Tick, Topology.Valid, Timely, Punctual;
    if n > 0 {
      TickInv(T, h, s);
      TickTimely(NoLag, T, h, s);
      RoomyIsOpen(T, h, s, x);
      TickPunctual(T, h, s, x);
      TickIds(T, s);
      TicksPunctual(T, h, Tick(T, s), x, n - 1);
    }
  }

  /** Freshly accepted into a quiet network, a message waits whole in its queue. */
  lemma AcceptFills(T: Topology, h: History, s: Net, m: Message)
    requires T.Valid() && Inv(T, h, s) && Quiet(s) && Acceptable(T, h, s, m)
    ensures MessageOk(T, m) && Filling(T, h.sent + [m], Accept(T, s, m), |h.sent|, 0)
  {
    hide Inv, Accept, Packetize, PacketCount, Topology.Valid, PlacesOk;
    InvPlaces(T, h, s);
    NextId(T, h, s);
    PortsAreOk(T, h.sent, s);
    AcceptableOk(T, h, s, m);
    AcceptFrame(T, s, m);
    AcceptPunctual(T, h, s, m);
    AcceptedPort(T, h, s, m, m.src);
    RecvWidth(T, h.sent, s, m.src);
    PortNode(T, s, m.src);
  }

  /**
   Exact latency: a message of `k` packets over `h` hops that is sent into a quiet network is available after `n` ticks
   if and only if `n >= k + h * (latency + 1)`, as long as the buffers are never too small for it; if they are, it is
   late.
   */
  lemma ExactLatency(T: Topology, st: State, op: Op, n: nat)
    requires T.Valid() && GoodAndTimely(T, st) && Wired(T, st.net) && Quiet(st.net)
    requires OpFits(T, st, op) && Accepted(T, st, op)
    ensures var st', m, x := Step(T, st, op), MessageOf(st, op), |st.hist.sent|;
            && MessageOk(T, m) && |st'.hist.sent| == x + 1
            && var least := Count(T, m) + Hops(T, m) * (T.config.latency + 1);
            if Roomy(T, m) then Available(st'.hist, Ticks(T, st'.net, n), x) <==> n >= least
            else n <= least ==> !Available(st'.hist, Ticks(T, st'.net, n), x)
  {
    hide Inv, Tick, Topology.Valid, Timely, Punctual, Accept, SendOutcome, Acceptable, Quiet, Available, Count, Roomy;
    var m := MessageOf(st, op);
    AcceptedIsAcceptable(T, st, op);
    AcceptableOk(T, st.hist, st.net, m);
    var h', s' := st.hist.(sent := st.hist.sent + [m]), Accept(T, st.net, m);
    AcceptFrame(T, st.net, m);
    AcceptInv(T, st.hist, st.net, m);
    AcceptTimely(T, st.hist, st.net, m);
    if Roomy(T, m) {
      AcceptPunctual(T, st.hist, st.net, m);
      OnTime(T, h', s', |st.hist.sent|, n);
    } else {
      AcceptFills(T, st.hist, st.net, m);
      NotOnTime(T, h', s', |st.hist.sent|, n);
    }
  }

  lemma OnTime(T: Topology, h: History, s: Net, x: nat, n: nat)
    requires T.Valid() && Inv(T, h, s) && SentOk(T, h.sent) && Timely(NoLag, T, h.sent, s) && x < |h.sent|
    requires Punctual(T, s, x) && Roomy(T, h.sent[x]) && s.tick == h.sent[x].start
    ensures var m := h.sent[x];
            Available(h, Ticks(T, s, n), x) <==> n >= Count(T, m) + Hops(T, m) * (T.config.latency + 1)
  {
    hide Inv, Tick, Topology.Valid, Timely, Punctual, Available, Count, Roomy, Hops;
    TicksPunctual(T, h, s, x, n);
    var end, m := Ticks(T, s, n), h.sent[x];
    HopTimeIs(T, Hops(T, m));
    AvailableIff(T, h, end, x);
    if n >= Count(T, m) + Hops(T, m) * (T.config.latency + 1) {
      PunctualArrives(T, h, end, x);
    }
    if Available(h, end, x) {
      NotEarly(NoLag, T, State(end, h), x);
    }
  }

  lemma NotOnTime(T: Topology, h: History, s: Net, x: nat, n: nat)
    requires T.Valid() && Inv(T, h, s) && SentOk(T, h.sent) && Timely(NoLag, T, h.sent, s) && x < |h.sent|
    requires Filling(T, h.sent, s, x, 0) && !Roomy(T, h.sent[x]) && s.tick == h.sent[x].start
    ensures var m := h.sent[x];
            n <= Count(T, m) + Hops(T, m) * (T.config.latency + 1) ==> !Available(h, Ticks(T, s, n), x)
  {
    hide Inv, Tick, Topology.Valid, Timely, Filling, Available, Count, Roomy, Hops;
    NotRoomy(T, h.sent[x]);
    TicksTimely(NoLag, T, h, s, n);
    if Available(h, Ticks(T, s, n), x) {
      NotEarly(NoLag, T, State(Ticks(T, s, n), h), x);
      MulMonotone(1, Hops(T, h.sent[x]), T.config.latency + 1);
      FillsUp(T, h, s, x, 0, n);
      NotEarly(Late(x, T.config.congestion.limit), T, State(Ticks(T, s, n), h), x);
    }
  }
}
