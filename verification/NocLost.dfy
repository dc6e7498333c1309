/** Messages that wrap: they are accepted, vanish, and with bounded reception take a credit with them for good. */
module NocLost {
  import opened Arith
  import opened Wrappers
  import opened RouteTable
  import opened NocState
  import opened NocInvariant
  import opened NocFlow
  import opened NocSystem
  import opened NocTick
  import opened NocPayload
  import opened NocEndpoints
  import opened NocConservation
  import opened NocRuns
  import opened NocAcceptance
  import opened NocTiming
  import opened NocBag

  // ----- A message that vanishes -----

  /** Such a message exists within the size limit exactly if the limit and one packet width together exceed 2^32. */
  lemma LosableIff(limit: nat, width: nat)
    requires 0 < limit && 0 < width <= MAX_WIDTH
    ensures (exists size: nat :: size <= limit && !SizeFits(size, width)) <==> limit + width > WORD32
  {
    if limit + width > WORD32 {
      assert !SizeFits(limit, width);
    }
  }

  /** Known ports and channel, and from just below 2^32 bytes up to exactly that many. */
  predicate Wraps(T: Topology, op: Op) {
    && op.SendOp? && op.src in T.port2node && op.dst in T.port2node && op.cha < T.Channels()
    && !SizeFits(|op.data|, T.widths[op.cha]) && |op.data| <= WORD32
  }

  /** The source can send, and with bounded reception the size limit and the credits allow it. */
  predicate MaySend(T: Topology, s: Net, op: Op)
    requires op.SendOp? && op.src in s.ports && T.NodeOf(op.src) in s.nodes
  {
    && CanSend(T, s, op.src, op.cha)
    && (T.config.slots > 0 ==> |op.data| <= T.config.maxBytes && ReservedAt(s, op.dst, op.cha) < T.config.slots)
  }

  /** Nothing has changed but a reservation, if there are any, and the next transfer id. */
  predicate OnlyReserves(T: Topology, s: Net, s': Net, q: PortId, c: nat) {
    && s'.nodes == s.nodes && s'.edges == s.edges && s'.tick == s.tick && s'.nextXmt == s.nextXmt + 1
    && s'.ports == if T.config.slots > 0 then Reserve(s.ports, q, c) else s.ports
  }

  lemma PortsThere(T: Topology, s: Net, op: Op)
    requires T.Valid() && Wired(T, s) && Wraps(T, op)
    ensures op.src in s.ports && op.dst in s.ports && T.NodeOf(op.src) in s.nodes && 0 < T.widths[op.cha] <= MAX_WIDTH
  {
    assert s.ports[op.src] == s.ports[op.src];
  }

  lemma QueuesNothing(ports: map<PortId, Port>, q: PortId, c: nat)
    ensures Enqueue(ports, q, c, []) == ports
  {
    if q in ports && c < |ports[q].sendBuf| {
      assert ports[q].sendBuf[c] + [] == ports[q].sendBuf[c];
      assert ports[q].sendBuf[c := ports[q].sendBuf[c]] == ports[q].sendBuf;
    }
  }

  /** In any state: it is accepted exactly if it may be sent, and then only the reservation is made. */
  lemma LostStep(T: Topology, st: State, op: Op)
    requires T.Valid() && Wired(T, st.net) && Wraps(T, op)
    ensures op.src in st.net.ports && T.NodeOf(op.src) in st.net.nodes
    ensures Accepted(T, st, op) <==> MaySend(T, st.net, op)
    ensures MaySend(T, st.net, op) ==>
              && OnlyReserves(T, st.net, Step(T, st, op).net, op.dst, op.cha)
              && Step(T, st, op).hist == st.hist.(sent := st.hist.sent + [MessageOf(st, op)])
  {
    hide PacketCount, Packetize, CanSend, Topology.Valid, Reserve, Enqueue;
    PortsThere(T, st.net, op);
    WrapsToNothing(T, MessageOf(st, op), st.net.nextXmt);
    QueuesNothing(if T.config.slots > 0 then Reserve(st.net.ports, op.dst, op.cha) else st.net.ports, op.src, op.cha);
  }

  /** The places of packets are the same. */
  lemma SamePlaces(T: Topology, s: Net, s': Net, q: PortId, c: nat, pl: Place)
    requires OnlyReserves(T, s, s', q, c)
    ensures At(s', pl) == At(s, pl)
  {
  }

  lemma OneMoreReserved(T: Topology, s: Net, s': Net, q: PortId, c: nat)
    requires OnlyReserves(T, s, s', q, c)
    ensures s'.ports.Keys == s.ports.Keys
    ensures forall p, d: nat :: QueueAt(s', p, d) == QueueAt(s, p, d) && RecvAt(s', p, d) == RecvAt(s, p, d)
    ensures forall p, d: nat ::
              p in s.ports && d < |s.ports[p].reserved| ==>
                && d < |s'.ports[p].reserved|
                && ReservedAt(s', p, d) == ReservedAt(s, p, d) + if T.config.slots > 0 && p == q && d == c then 1 else 0
  {
  }

  /** The source is free, and with bounded reception the message is of an allowed size and has a credit left. */
  ghost predicate MayVanish(T: Topology, st: State, op: Op)
    requires op.SendOp?
  {
    SourceFree(T, st.net, op.src, op.cha) && SizeAllowed(T, MessageOf(st, op))
    && CreditLeft(T, st.hist, MessageOf(st, op))
  }

  lemma MayVanishIs(T: Topology, st: State, op: Op)
    requires T.Valid() && Good(T, st) && Wraps(T, op) && op.src in st.net.ports && op.dst in st.net.ports
    ensures T.NodeOf(op.src) in st.net.nodes && (MaySend(T, st.net, op) <==> MayVanish(T, st, op))
  {
    hide Inv, Topology.Valid, CanSend, SourceFree, ReservedAt, Outstanding;
    CanSendIff(T, st.hist, st.net, op.src, op.cha);
    if T.config.slots > 0 {
      CreditIs(T, st.hist, st.net, op.dst, op.cha);
    }
  }

  lemma RefusedHistory(T: Topology, st: State, op: Op)
    requires T.Valid() && Wired(T, st.net) && op.SendOp? && !Accepted(T, st, op)
    ensures Step(T, st, op) == st
  {
    hide Topology.Valid, Accepted;
  }

  /**
   The bus claims to have taken the message, yet no queue, node or link has changed and no packet of it is anywhere;
   with bounded reception it holds a credit of its destination.
   */
  lemma LostMessage(T: Topology, st: State, op: Op)
    requires T.Valid() && Good(T, st) && Wraps(T, op)
    ensures Wired(T, st.net) && op.src in st.net.ports && T.NodeOf(op.src) in st.net.nodes
    ensures Step(T, st, op).hist.sent != st.hist.sent <==> MayVanish(T, st, op)
    ensures MayVanish(T, st, op) ==>
              var s, s' := st.net, Step(T, st, op).net;
              && |Step(T, st, op).hist.sent| == |st.hist.sent| + 1 && !Carried(s', |st.hist.sent|)
              && s'.nodes == s.nodes && s'.edges == s.edges
              && (forall q, c: nat :: QueueAt(s', q, c) == QueueAt(s, q, c) && RecvAt(s', q, c) == RecvAt(s, q, c))
              && (T.config.slots > 0 ==> ReservedAt(s', op.dst, op.cha) == ReservedAt(s, op.dst, op.cha) + 1)
  {
    hide Inv, Topology.Valid, MaySend, MayVanish, Accepted, Step, Carried, Reserve, PlacesOk;
    InvPlaces(T, st.hist, st.net);
    PortsThere(T, st.net, op);
    LostStep(T, st, op);
    MayVanishIs(T, st, op);
    if MaySend(T, st.net, op) {
      RecvWidth(T, st.hist.sent, st.net, op.dst);
      OneMoreReserved(T, st.net, Step(T, st, op).net, op.dst, op.cha);
      NotCarriedYet(T, st, Step(T, st, op).net, op.dst, op.cha);
    } else {
      RefusedHistory(T, st, op);
    }
  }

  lemma NotCarriedYet(T: Topology, st: State, s: Net, q: PortId, c: nat)
    requires T.Valid() && Good(T, st) && OnlyReserves(T, st.net, s, q, c)
    ensures !Carried(s, |st.hist.sent|)
  {
    hide Inv, Genuine, Topology.Valid, At, OnlyReserves;
    if Carried(s, |st.hist.sent|) {
      var pl :| Holds(s, pl, |st.hist.sent|);
      SamePlaces(T, st.net, s, q, c, pl);
      AtMostOnePlace(T, st.hist, st.net, pl, pl, At(s, pl).value);
      KnownId(T, st.hist.sent, At(s, pl).value);
    }
  }

  lemma KnownId(T: Topology, sent: seq<Message>, p: Packet)
    requires Genuine(T, sent, p)
    ensures p.xmt < |sent|
  {
  }

  // ----- A port and channel without credits and without packets -----

  predicate Other(p: Packet, q: PortId, c: nat) { p.dst != q || p.cha != c }

  predicate PipeOther(pipe: seq<Piped>, q: PortId, c: nat) {
    forall i :: 0 <= i < |pipe| ==> Other(pipe[i].pack, q, c)
  }

  predicate SlotsOther(slots: Slots, q: PortId, c: nat) {
    forall d :: 0 <= d < |slots| && slots[d].Some? ==> Other(slots[d].value, q, c)
  }

  predicate QueuesOther(port: Port, q: PortId, c: nat) {
    forall d, i {:trigger port.sendBuf[d][i]} :: 0 <= d < |port.sendBuf| && 0 <= i < |port.sendBuf[d]| ==>
                                                   Other(port.sendBuf[d][i], q, c)
  }

  /** No packet for port `q` and channel `c` is on its way. */
  ghost predicate NoneUnderWay(s: Net, q: PortId, c: nat) {
    && (forall n {:trigger s.nodes[n]} :: n in s.nodes ==> PipeOther(s.nodes[n].pipeline, q, c))
    && (forall l {:trigger s.edges[l]} :: l in s.edges ==>
                                            SlotsOther(s.edges[l].input, q, c) && SlotsOther(s.edges[l].output, q, c))
    && (forall p {:trigger s.ports[p]} :: p in s.ports ==> QueuesOther(s.ports[p], q, c))
  }

  /** All credits are taken, and nothing is there or on its way that could give one back. */
  ghost predicate Starved(T: Topology, s: Net, q: PortId, c: nat) {
    && Wired(T, s) && T.config.slots > 0 && T.config.slots <= ReservedAt(s, q, c)
    && RecvAt(s, q, c) == [] && NoneUnderWay(s, q, c)
  }

  ghost predicate ViewOther(v: View, q: PortId, c: nat) {
    && PipeOther(v.node.pipeline, q, c)
    && (forall k :: k in v.rx ==> SlotsOther(v.rx[k], q, c))
    && (forall m :: m in v.tx ==> SlotsOther(v.tx[m], q, c))
    && (forall p :: p in v.ports ==> QueuesOther(v.ports[p], q, c))
  }

  lemma ViewIsOther(T: Topology, s: Net, n: NodeId, q: PortId, c: nat)
    requires NoneUnderWay(s, q, c) && n in s.nodes
    ensures ViewOther(GetView(T, s, n), q, c)
  {
    hide GetView, PipeOther, SlotsOther, QueuesOther;
    var v := GetView(T, s, n);
    ViewBack(T, s, n);
    forall k | k in v.rx ensures SlotsOther(v.rx[k], q, c) {
      assert SlotsOther(s.edges[(k, n)].output, q, c);
    }
    forall m | m in v.tx ensures SlotsOther(v.tx[m], q, c) {
      assert SlotsOther(s.edges[(n, m)].input, q, c);
    }
    forall p | p in v.ports ensures QueuesOther(v.ports[p], q, c) {
      assert QueuesOther(s.ports[p], q, c);
    }
  }

  lemma EnteringOther(T: Topology, n: NodeId, v: View, q: PortId, c: nat)
    requires ViewOther(v, q, c)
    ensures Entering(T, n, v).Some? ==> Other(Entering(T, n, v).value, q, c)
    ensures PipeOther(PipeIn(T, n, v), q, c)
    ensures forall k :: k in v.rx ==> k in RxOut(T, n, v) && SlotsOther(RxOut(T, n, v)[k], q, c)
  {
    hide Taken, Other;
    TakenChosen(T, n, v);
    if Taken(T, n, v) != NoChoice {
      ChosenOther(v, Taken(T, n, v), q, c);
    }
  }

  lemma TakenChosen(T: Topology, n: NodeId, v: View)
    ensures Taken(T, n, v) != NoChoice ==> Chosen(v, Taken(T, n, v)).Some?
  {
    hide Arbitrate;
  }

  lemma ChosenOther(v: View, choice: Choice, q: PortId, c: nat)
    requires ViewOther(v, q, c) && Chosen(v, choice).Some?
    ensures Other(Chosen(v, choice).value, q, c)
  {
    hide Other;
    match choice
    case FromLink(k, d) => assert SlotsOther(v.rx[k], q, c);
    case FromPort(p, d) => assert QueuesOther(v.ports[p], q, c) && v.ports[p].sendBuf[d][0] == v.ports[p].sendBuf[d][0];
  }

  lemma {:induction false} ReleaseOther(T: Topology, n: NodeId, pipe: seq<Piped>, tx: map<NodeId, Slots>, q: PortId,
                                        c: nat)
    requires PipeOther(pipe, q, c) && forall m :: m in tx ==> SlotsOther(tx[m], q, c)
    ensures var r := Release(T, n, pipe, tx);
            PipeOther(r.0, q, c) && forall m :: m in r.1 ==> SlotsOther(r.1[m], q, c)
    decreases |pipe|
  {
    hide Other;
    if pipe != [] {
      assert PipeOther(pipe[1..], q, c);
      ReleaseOther(T, n, pipe[1..], Filled(T, n, pipe[0], tx), q, c);
    }
  }

  /** A port after its node's part of the tick. */
  lemma HandedOther(T: Topology, n: NodeId, v: View, p: PortId, q: PortId, c: nat)
    requires ViewOther(v, q, c) && p in v.ports && p in Handed(T, n, v).0
    ensures QueuesOther(Handed(T, n, v).0[p], q, c)
    ensures var port := Handed(T, n, v).0[p];
            p == q ==>
              && (c < |port.recvBuf| <==> c < |v.ports[q].recvBuf|)
              && (c < |port.recvBuf| ==> port.recvBuf[c] == v.ports[q].recvBuf[c])
              && port.reserved == v.ports[q].reserved
  {
    hide Taken, Entering, Other, InsertByIdx;
    EnteringOther(T, n, v, q, c);
    PoppedOther(T, n, v, p, q, c);
    PoppedBuffers(T, n, v, p);
    if Entering(T, n, v).Some? && Entering(T, n, v).value.tgt == n {
      DeliverOther(Popped(T, n, v), v.node.orderBuf, Entering(T, n, v).value, p, q, c);
    }
  }

  lemma PoppedOther(T: Topology, n: NodeId, v: View, p: PortId, q: PortId, c: nat)
    requires ViewOther(v, q, c) && p in v.ports
    ensures p in Popped(T, n, v) && QueuesOther(Popped(T, n, v)[p], q, c)
  {
    hide Arbitrate, Other;
    assert QueuesOther(v.ports[p], q, c);
    match Taken(T, n, v)
    case FromPort(r, d) =>
      if r == p {
        var port, port' := v.ports[p], Popped(T, n, v)[p];
        forall e, i | 0 <= e < |port'.sendBuf| && 0 <= i < |port'.sendBuf[e]| ensures Other(port'.sendBuf[e][i], q, c) {
          assert port'.sendBuf[e][i] == if e == d then port.sendBuf[e][i + 1] else port.sendBuf[e][i];
        }
      }
    case _ =>
  }

  lemma DeliverOther(ports: map<PortId, Port>, orderBuf: OrderBuf, pack: Packet, p: PortId, q: PortId, c: nat)
    requires p in ports && QueuesOther(ports[p], q, c) && Other(pack, q, c)
    ensures p in Deliver(ports, orderBuf, pack).0 && QueuesOther(Deliver(ports, orderBuf, pack).0[p], q, c)
    ensures var port := Deliver(ports, orderBuf, pack).0[p];
            p == q ==>
              && (c < |port.recvBuf| <==> c < |ports[q].recvBuf|)
              && (c < |port.recvBuf| ==> port.recvBuf[c] == ports[q].recvBuf[c])
              && port.reserved == ports[q].reserved
  {
    hide InsertByIdx;
  }

  // ----- It stays so -----

  lemma TransferOther(linkWidth: nat, e: Edge, q: PortId, c: nat)
    requires SlotsOther(e.input, q, c) && SlotsOther(e.output, q, c)
    ensures SlotsOther(Transfer(linkWidth, e, 0, 0).input, q, c)
            && SlotsOther(Transfer(linkWidth, e, 0, 0).output, q, c)
  {
    TransferKeeps(linkWidth, e, 0, 0, q, c);
  }

  lemma {:induction false} TransferKeeps(linkWidth: nat, e: Edge, d: nat, total: nat, q: PortId, c: nat)
    requires SlotsOther(e.input, q, c) && SlotsOther(e.output, q, c)
    ensures var e' := Transfer(linkWidth, e, d, total); SlotsOther(e'.input, q, c) && SlotsOther(e'.output, q, c)
    decreases |e.input| - d
  {
    hide Other;
    if d < |e.input| && d < |e.output| && total < linkWidth {
      TransferKeeps(linkWidth, e, d + 1, total, q, c);
      if e.input[d].Some? && e.output[d].None? {
        TransferKeeps(linkWidth, Edge(e.input[d := None], e.output[d := e.input[d]]), d + 1,
                      (total + |e.input[d].value.data|) % WORD32, q, c);
      }
    }
  }

  lemma InputOther(T: Topology, s: Net, l: Link, q: PortId, c: nat)
    requires NoneUnderWay(s, q, c) && l in s.edges
    ensures SlotsOther(InputAfter(T, s, l), q, c) && SlotsOther(OutputAfter(T, s, l), q, c)
  {
    hide SlotsOther, PipeOther, QueuesOther, GetView, Release, RxOut, PipeIn, ViewOther;
    assert SlotsOther(s.edges[l].input, q, c);
    if l.0 in s.nodes {
      ViewIsOther(T, s, l.0, q, c);
      SenderOther(T, l.0, GetView(T, s, l.0), q, c);
    }
    if l.1 in s.nodes {
      ViewIsOther(T, s, l.1, q, c);
      ReceiverOther(T, l.1, GetView(T, s, l.1), q, c);
    }
  }

  lemma SenderOther(T: Topology, n: NodeId, v: View, q: PortId, c: nat)
    requires ViewOther(v, q, c)
    ensures PipeOther(ProcessNode(T, n, v).node.pipeline, q, c)
    ensures forall m :: m in ProcessNode(T, n, v).tx ==> SlotsOther(ProcessNode(T, n, v).tx[m], q, c)
  {
    hide SlotsOther, PipeOther, QueuesOther, Release, PipeIn, RxOut, ProcessNode;
    EnteringOther(T, n, v, q, c);
    ReleaseOther(T, n, PipeIn(T, n, v), v.tx, q, c);
    ProcessedSender(T, n, v);
  }

  lemma ReceiverOther(T: Topology, n: NodeId, v: View, q: PortId, c: nat)
    requires ViewOther(v, q, c)
    ensures forall k :: k in ProcessNode(T, n, v).rx ==> SlotsOther(ProcessNode(T, n, v).rx[k], q, c)
  {
    hide SlotsOther, PipeOther, QueuesOther, Release, PipeIn, Handed, Taken, Arbitrate;
    EnteringOther(T, n, v, q, c);
    RxKeys(T, n, v);
  }

  lemma RxKeys(T: Topology, n: NodeId, v: View)
    ensures RxOut(T, n, v).Keys == v.rx.Keys
  {
    hide Arbitrate;
  }

  lemma PortOther(T: Topology, s: Net, p: PortId, q: PortId, c: nat)
    requires NoneUnderWay(s, q, c) && p in s.ports
    ensures QueuesOther(PortAfter(T, s, p), q, c)
    ensures var port := PortAfter(T, s, p);
            p == q ==>
              && (c < |port.recvBuf| <==> c < |s.ports[q].recvBuf|)
              && (c < |port.recvBuf| ==> port.recvBuf[c] == s.ports[q].recvBuf[c])
              && port.reserved == s.ports[q].reserved
  {
    hide QueuesOther, GetView, Handed, ViewOther, Release, PipeIn, RxOut, Taken, Arbitrate, BufferedAfter;
    assert QueuesOther(s.ports[p], q, c);
    var n := T.NodeOf(p);
    if n in s.nodes {
      ViewIsOther(T, s, n, q, c);
      ViewPort(T, s, p);
      if p in Handed(T, n, GetView(T, s, n)).0 {
        HandedOther(T, n, GetView(T, s, n), p, q, c);
      }
    }
  }

  lemma TickPortIs(T: Topology, s: Net, p: PortId)
    requires p in s.ports
    ensures p in Tick(T, s).ports && Tick(T, s).ports[p] == PortAfter(T, s, p)
  {
    hide PortAfter, InputAfter, OutputAfter, ProcessNode, GetView, Transfer, UpdateCongestion;
  }

  lemma EdgeAfterIs(T: Topology, s: Net, l: Link)
    requires l in s.edges
    ensures l in NodePhase(T, s).edges && NodePhase(T, s).edges[l] == Edge(InputAfter(T, s, l), OutputAfter(T, s, l))
  {
    hide PortAfter, InputAfter, OutputAfter, ProcessNode, GetView;
  }

  lemma TickStarved(T: Topology, s: Net, q: PortId, c: nat)
    requires Starved(T, s, q, c)
    ensures Starved(T, Tick(T, s), q, c)
  {
    hide Tick, NodePhase, PipeOther, SlotsOther, QueuesOther, PortAfter, InputAfter, OutputAfter, ProcessNode, GetView,
      Transfer, ViewOther;
    var s' := Tick(T, s);
    TickKeys(T, s);
    forall n | n in s'.nodes ensures PipeOther(s'.nodes[n].pipeline, q, c) {
      ViewIsOther(T, s, n, q, c);
      SenderOther(T, n, GetView(T, s, n), q, c);
      TickNodeIs(T, s, n);
    }
    forall l | l in s'.edges ensures SlotsOther(s'.edges[l].input, q, c) && SlotsOther(s'.edges[l].output, q, c) {
      InputOther(T, s, l, q, c);
      EdgeAfterIs(T, s, l);
      TickEdge(T, s, l);
      TransferOther(T.config.linkWidth, NodePhase(T, s).edges[l], q, c);
    }
    forall p | p in s'.ports ensures QueuesOther(s'.ports[p], q, c) {
      PortOther(T, s, p, q, c);
      TickPortIs(T, s, p);
    }
    if q in s.ports {
      PortOther(T, s, q, q, c);
      TickPortIs(T, s, q);
    }
    TickWired(T, s);
  }

  lemma TickWired(T: Topology, s: Net)
    requires Wired(T, s)
    ensures Wired(T, Tick(T, s))
  {
    hide Tick;
    TickKeys(T, s);
    forall p | p in Tick(T, s).ports ensures T.NodeOf(p) in Tick(T, s).nodes {
      assert s.ports[p] == s.ports[p];
    }
    forall l | l in Tick(T, s).edges ensures l.0 in Tick(T, s).nodes && l.1 in Tick(T, s).nodes {
      assert s.edges[l] == s.edges[l];
    }
  }

  lemma AcceptCredits(T: Topology, s: Net, m: Message, q: PortId, c: nat)
    requires m.cha < T.Channels() && T.widths[m.cha] > 0
    ensures RecvAt(Accept(T, s, m), q, c) == RecvAt(s, q, c) && ReservedAt(Accept(T, s, m), q, c) >= ReservedAt(s, q, c)
  {
    hide Packetize;
  }

  lemma AcceptStarved(T: Topology, s: Net, m: Message, q: PortId, c: nat)
    requires Starved(T, s, q, c) && (m.dst != q || m.cha != c) && m.cha < T.Channels() && T.widths[m.cha] > 0
    ensures Starved(T, Accept(T, s, m), q, c)
  {
    hide Packetize, PipeOther, SlotsOther, QueuesOther, Accept, RecvAt, ReservedAt, Wired;
    AcceptFrame(T, s, m);
    AcceptCredits(T, s, m, q, c);
    var s', packs := Accept(T, s, m), Packetize(T, m, s.nextXmt);
    PacketsOther(T, m, s.nextXmt, q, c);
    forall p | p in s'.ports ensures QueuesOther(s'.ports[p], q, c) {
      assert QueuesOther(s.ports[p], q, c);
      AcceptQueues(T, s, m, p);
      QueuedOther(s.ports[p], s'.ports[p], m.src == p, m.cha, packs, q, c);
    }
    WiredByKeys(T, s, s');
  }

  lemma PacketsOther(T: Topology, m: Message, x: nat, q: PortId, c: nat)
    requires m.cha < T.Channels() && T.widths[m.cha] > 0 && (m.dst != q || m.cha != c)
    ensures forall i :: 0 <= i < |Packetize(T, m, x)| ==> Other(Packetize(T, m, x)[i], q, c)
  {
    hide PacketCount, Chunk;
  }

  lemma AcceptQueues(T: Topology, s: Net, m: Message, p: PortId)
    requires p in s.ports && m.cha < T.Channels() && T.widths[m.cha] > 0
    ensures var port, port', packs := s.ports[p], Accept(T, s, m).ports[p], Packetize(T, m, s.nextXmt);
            port'.sendBuf == if p == m.src && m.cha < |port.sendBuf|
            then port.sendBuf[m.cha := port.sendBuf[m.cha] + packs] else port.sendBuf
  {
    hide Packetize;
  }

  lemma QueuedOther(port: Port, port': Port, here: bool, d: nat, packs: seq<Packet>, q: PortId, c: nat)
    requires QueuesOther(port, q, c) && forall i :: 0 <= i < |packs| ==> Other(packs[i], q, c)
    requires port'.sendBuf
          == if here && d < |port.sendBuf| then port.sendBuf[d := port.sendBuf[d] + packs] else port.sendBuf
    ensures QueuesOther(port', q, c)
  {
    hide Other;
    forall e, i | 0 <= e < |port'.sendBuf| && 0 <= i < |port'.sendBuf[e]| ensures Other(port'.sendBuf[e][i], q, c) {
      if port'.sendBuf[e] != port.sendBuf[e] {
        assert port'.sendBuf[e][i]
            == if i < |port.sendBuf[e]| then port.sendBuf[e][i] else packs[i - |port.sendBuf[e]|];
      } else {
        assert Other(port.sendBuf[e][i], q, c);
      }
    }
  }

  lemma WiredByKeys(T: Topology, s: Net, s': Net)
    requires Wired(T, s) && s'.nodes.Keys == s.nodes.Keys && s'.ports.Keys == s.ports.Keys
             && s'.edges.Keys == s.edges.Keys
    ensures Wired(T, s')
  {
    forall p | p in s'.ports ensures T.NodeOf(p) in s'.nodes {
      assert s.ports[p] == s.ports[p];
    }
    forall l | l in s'.edges ensures l.0 in s'.nodes && l.1 in s'.nodes {
      assert s.edges[l] == s.edges[l];
    }
  }

  lemma TakeStarved(T: Topology, s: Net, p: PortId, d: nat, q: PortId, c: nat)
    requires Starved(T, s, q, c) && CanRecv(s, p, d) && p in s.ports
    ensures Starved(T, TakeFront(T, s, p, d), q, c)
  {
    hide PipeOther, SlotsOther;
    var s' := TakeFront(T, s, p, d);
    forall r | r in s'.ports ensures QueuesOther(s'.ports[r], q, c) {
      assert QueuesOther(s.ports[r], q, c) && s'.ports[r].sendBuf == s.ports[r].sendBuf;
    }
    WiredByKeys(T, s, s');
  }

  /** Whatever happens next, the port and channel stay starved. */
  lemma StepStarved(T: Topology, st: State, op: Op, q: PortId, c: nat)
    requires T.Valid() && Starved(T, st.net, q, c)
    ensures Starved(T, Step(T, st, op).net, q, c)
  {
    hide Starved, Topology.Valid, Tick, Accept, TakeFront, CanSend, PacketCount, Wired;
    StarvedWired(T, st.net, q, c);
    if op.TickOp? {
      TickStarved(T, st.net, q, c);
    } else if Accepted(T, st, op) {
      WidthThere(T, op.cha);
      NotToStarved(T, st, op, q, c);
      AcceptStarved(T, st.net, MessageOf(st, op), q, c);
    } else if Handing(T, st, op) {
      TakeStarved(T, st.net, op.port, op.cha, q, c);
    }
  }

  lemma StarvedWired(T: Topology, s: Net, q: PortId, c: nat)
    requires Starved(T, s, q, c)
    ensures Wired(T, s) && T.config.slots > 0 && T.config.slots <= ReservedAt(s, q, c) && RecvAt(s, q, c) == []
  {
  }

  lemma WidthThere(T: Topology, c: nat)
    requires T.Valid() && c < T.Channels()
    ensures T.widths[c] > 0
  {
  }

  lemma NotToStarved(T: Topology, st: State, op: Op, q: PortId, c: nat)
    requires T.Valid() && Starved(T, st.net, q, c) && Wired(T, st.net) && Accepted(T, st, op)
    ensures op.cha < T.Channels() && (op.dst != q || op.cha != c)
  {
    hide Topology.Valid, CanSend, PacketCount, NoneUnderWay;
  }

  // ----- Runs -----

  /** The state after any operations at all, from any state with its containers in place. */
  ghost function Onward(T: Topology, st: State, ops: seq<Op>): (end: State)
    requires T.Valid() && Wired(T, st.net)
    ensures Wired(T, end.net)
    decreases |ops|
  {
    if ops == [] then st
    else
      StepWired(T, st, ops[0]);
      Onward(T, Step(T, st, ops[0]), ops[1..])
  }

  lemma StepWired(T: Topology, st: State, op: Op)
    requires T.Valid() && Wired(T, st.net)
    ensures Wired(T, Step(T, st, op).net)
  {
    hide Topology.Valid, Tick, Accept, CanSend, PacketCount, Wired;
    if op.TickOp? {
      TickWired(T, st.net);
    } else if Accepted(T, st, op) {
      AcceptedThere(T, st, op);
      AcceptFrame(T, st.net, MessageOf(st, op));
      WiredByKeys(T, st.net, Accept(T, st.net, MessageOf(st, op)));
    } else if Handing(T, st, op) {
      WiredByKeys(T, st.net, TakeFront(T, st.net, op.port, op.cha));
    }
  }

  lemma AcceptedThere(T: Topology, st: State, op: Op)
    requires T.Valid() && Wired(T, st.net) && Accepted(T, st, op)
    ensures op.cha < T.Channels() && T.widths[op.cha] > 0
  {
    hide CanSend, PacketCount;
  }

  lemma {:induction false} OnwardStarved(T: Topology, st: State, ops: seq<Op>, q: PortId, c: nat)
    requires T.Valid() && Wired(T, st.net) && Starved(T, st.net, q, c)
    ensures Starved(T, Onward(T, st, ops).net, q, c)
    decreases |ops|
  {
    hide Starved, Topology.Valid, Step, Wired;
    if ops != [] {
      StepWired(T, st, ops[0]);
      StepStarved(T, st, ops[0], q, c);
      OnwardStarved(T, Step(T, st, ops[0]), ops[1..], q, c);
    }
  }

  /** The same message offered `k` times. */
  function Again(op: Op, k: nat): seq<Op> { seq(k, _ => op) }

  /** Every time it is accepted, and nothing changes but the reservations. */
  lemma {:induction false} TakesCredits(T: Topology, st: State, op: Op, k: nat)
    requires T.Valid() && Wired(T, st.net) && Wraps(T, op) && T.config.slots > 0 && |op.data| <= T.config.maxBytes
    requires op.src in st.net.ports && T.NodeOf(op.src) in st.net.nodes && CanSend(T, st.net, op.src, op.cha)
    requires op.dst in st.net.ports && op.cha < |st.net.ports[op.dst].reserved|
    requires ReservedAt(st.net, op.dst, op.cha) + k <= T.config.slots
    ensures var s, s' := st.net, Onward(T, st, Again(op, k)).net;
            && s'.nodes == s.nodes && s'.edges == s.edges && s'.ports.Keys == s.ports.Keys
            && (forall q, c: nat :: QueueAt(s', q, c) == QueueAt(s, q, c) && RecvAt(s', q, c) == RecvAt(s, q, c))
            && ReservedAt(s', op.dst, op.cha) == ReservedAt(s, op.dst, op.cha) + k
            && |Onward(T, st, Again(op, k)).hist.sent| == |st.hist.sent| + k
    decreases k
  {
    hide Topology.Valid, Step, Wraps, CanSend, Wired, Reserve;
    if k > 0 {
      var s' := Step(T, st, op).net;
      LostStep(T, st, op);
      StepWired(T, st, op);
      OneMoreReserved(T, st.net, s', op.dst, op.cha);
      StillOpen(T, st.net, s', op);
      assert Again(op, k)[1..] == Again(op, k - 1) && Again(op, k)[0] == op;
      TakesCredits(T, Step(T, st, op), op, k - 1);
    }
  }

  lemma StillOpen(T: Topology, s: Net, s': Net, op: Op)
    requires op.SendOp? && op.src in s.ports && op.src in s'.ports && T.NodeOf(op.src) in s.nodes && s'.nodes == s.nodes
    requires QueueAt(s', op.src, op.cha) == QueueAt(s, op.src, op.cha)
    ensures CanSend(T, s', op.src, op.cha) == CanSend(T, s, op.src, op.cha)
  {
  }

  /** Without outstanding messages nothing is there or on its way. */
  lemma NothingOutstanding(T: Topology, h: History, s: Net, q: PortId, c: nat)
    requires T.Valid() && Inv(T, h, s) && T.config.slots > 0 && q in s.ports && c < T.Channels()
    requires ReservedAt(s, q, c) == 0
    ensures RecvAt(s, q, c) == [] && NoneUnderWay(s, q, c)
  {
    hide Inv, Topology.Valid, At, Other;
    forall pl, p | At(s, pl) == Some(p) ensures Other(p, q, c) {
      PlaceOther(T, h, s, q, c, pl, p);
    }
    NoneAnywhere(s, q, c);
    if RecvAt(s, q, c) != [] {
      FrontOther(T, h, s, q, c);
    }
  }

  /** A packet anywhere holds a credit of its destination. */
  lemma PlaceOther(T: Topology, h: History, s: Net, q: PortId, c: nat, pl: Place, p: Packet)
    requires T.Valid() && Inv(T, h, s) && T.config.slots > 0 && q in s.ports && c < T.Channels()
    requires ReservedAt(s, q, c) == 0 && At(s, pl) == Some(p)
    ensures Other(p, q, c)
  {
    hide Inv, Topology.Valid, At, PlacesOk;
    AtMostOnePlace(T, h, s, pl, pl, p);
    CreditIs(T, h, s, q, c);
    if !Other(p, q, c) {
      CountedOutstanding(h, q, c, p.xmt, |h.sent|);
    }
  }

  lemma {:induction false} CountedOutstanding(h: History, q: PortId, c: nat, x: nat, n: nat)
    requires x < n <= |h.sent| && h.sent[x].dst == q && h.sent[x].cha == c && x !in h.received
    ensures Outstanding(h, q, c, n) > 0
  {
    if x < n - 1 {
      CountedOutstanding(h, q, c, x, n - 1);
    }
  }

  lemma NoneAnywhere(s: Net, q: PortId, c: nat)
    requires forall pl, p :: At(s, pl) == Some(p) ==> Other(p, q, c)
    ensures NoneUnderWay(s, q, c)
  {
    hide Other;
    forall n | n in s.nodes ensures PipeOther(s.nodes[n].pipeline, q, c) {
      forall i | 0 <= i < |s.nodes[n].pipeline| ensures Other(s.nodes[n].pipeline[i].pack, q, c) {
        assert At(s, Piping(n, i)) == Some(s.nodes[n].pipeline[i].pack);
      }
    }
    forall l | l in s.edges ensures SlotsOther(s.edges[l].input, q, c) && SlotsOther(s.edges[l].output, q, c) {
      forall d | 0 <= d < |s.edges[l].input| && s.edges[l].input[d].Some?
        ensures Other(s.edges[l].input[d].value, q, c) {
        assert At(s, OnInput(l, d)) == Some(s.edges[l].input[d].value);
      }
      forall d | 0 <= d < |s.edges[l].output| && s.edges[l].output[d].Some?
        ensures Other(s.edges[l].output[d].value, q, c)
      {
        assert At(s, OnOutput(l, d)) == Some(s.edges[l].output[d].value);
      }
    }
    forall p | p in s.ports ensures QueuesOther(s.ports[p], q, c) {
      forall d, i | 0 <= d < |s.ports[p].sendBuf| && 0 <= i < |s.ports[p].sendBuf[d]|
        ensures Other(s.ports[p].sendBuf[d][i], q, c)
      {
        assert At(s, Queued(p, d, i)) == Some(s.ports[p].sendBuf[d][i]);
      }
    }
  }

  lemma FrontOther(T: Topology, h: History, s: Net, q: PortId, c: nat)
    requires T.Valid() && Inv(T, h, s) && T.config.slots > 0 && q in s.ports && c < T.Channels()
    requires ReservedAt(s, q, c) == 0
    ensures RecvAt(s, q, c) == []
  {
    hide Inv, Topology.Valid, CanRecv;
    FrontIsMessage(T, h, s, q, c);
    CreditIs(T, h, s, q, c);
    if RecvAt(s, q, c) != [] {
      CountedOutstanding(h, q, c, RecvAt(s, q, c)[0].xmt, |h.sent|);
    }
  }

  lemma NowStarved(T: Topology, s: Net, s': Net, q: PortId, c: nat)
    requires Wired(T, s') && s'.nodes == s.nodes && s'.edges == s.edges && s'.ports.Keys == s.ports.Keys
    requires forall p, d: nat :: QueueAt(s', p, d) == QueueAt(s, p, d)
    requires T.config.slots > 0 && T.config.slots <= ReservedAt(s', q, c) && RecvAt(s', q, c) == []
    requires NoneUnderWay(s, q, c)
    ensures Starved(T, s', q, c)
  {
    hide PipeOther, SlotsOther, Other, RecvAt, ReservedAt, Wired;
    forall p | p in s'.ports ensures QueuesOther(s'.ports[p], q, c) {
      assert QueuesOther(s.ports[p], q, c);
      forall d, i | 0 <= d < |s'.ports[p].sendBuf| && 0 <= i < |s'.ports[p].sendBuf[d]|
        ensures Other(s'.ports[p].sendBuf[d][i], q, c)
      {
        assert QueueAt(s', p, d) == QueueAt(s, p, d);
        assert Other(s.ports[p].sendBuf[d][i], q, c);
      }
    }
  }

  lemma StarvedRefuses(T: Topology, s: Net, m: Message)
    requires T.Valid() && Wired(T, s) && Starved(T, s, m.dst, m.cha)
    ensures SendOutcome(T, s, m) != Success(true) && RecvAt(s, m.dst, m.cha) == []
  {
    hide Topology.Valid, CanSend, PacketCount, NoneUnderWay;
  }

  /**
   Credits that are never given back: with bounded reception, as many wrapping messages as there are slots, to a port
   and channel with none outstanding, are all accepted; and whatever is done after that, `send` never again accepts a
   message for that port and channel, and nothing is ever received there.
   */
  lemma Starves(T: Topology, st: State, op: Op, ops: seq<Op>, last: Op)
    requires T.Valid() && Good(T, st) && Wired(T, st.net) && Wraps(T, op)
    requires T.config.slots > 0 && |op.data| <= T.config.maxBytes && SourceFree(T, st.net, op.src, op.cha)
    requires Outstanding(st.hist, op.dst, op.cha, |st.hist.sent|) == 0
    requires last.SendOp? && last.dst == op.dst && last.cha == op.cha
    ensures var jammed := Onward(T, st, Again(op, T.config.slots));
            var end := Onward(T, jammed, ops);
            && |jammed.hist.sent| == |st.hist.sent| + T.config.slots
            && Wired(T, end.net) && Step(T, end, last) == end && RecvAt(end.net, op.dst, op.cha) == []
  {
    hide Inv, Topology.Valid, CanSend, SourceFree, Wired, Starved, Onward, SendOutcome, SizeFits, Step, Outstanding;
    PortsThere(T, st.net, op);
    CanSendIff(T, st.hist, st.net, op.src, op.cha);
    CreditIs(T, st.hist, st.net, op.dst, op.cha);
    NothingOutstanding(T, st.hist, st.net, op.dst, op.cha);
    TakesCredits(T, st, op, T.config.slots);
    var jammed := Onward(T, st, Again(op, T.config.slots));
    NowStarved(T, st.net, jammed.net, op.dst, op.cha);
    OnwardStarved(T, jammed, ops, op.dst, op.cha);
    var end := Onward(T, jammed, ops);
    StarvedRefuses(T, end.net, MessageOf(end, last));
    RefusedHistory(T, end, last);
  }
}
