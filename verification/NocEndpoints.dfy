/** Accepting a message and handing one out preserve the invariant of the bus. */
module NocEndpoints {
  import opened RouteTable
  import opened NocState
  import opened NocInvariant
  import opened NocHistory
  import opened NocPayload
  import opened NocReassembly
  import opened NocSystem
  import opened NocTick

  // ----- A longer history changes nothing for the packets already under way -----

  lemma RightPlaceStable(T: Topology, sent: seq<Message>, m: Message, n: NodeId, p: Packet)
    requires RightPlace(T, sent, n, p)
    ensures RightPlace(T, sent + [m], n, p)
  {
  }

  lemma PipeStable(T: Topology, sent: seq<Message>, m: Message, n: NodeId, pipe: seq<Piped>)
    requires PipeOk(T, sent, n, pipe)
    ensures PipeOk(T, sent + [m], n, pipe)
  {
    hide RightPlace, Sorted;
    forall i | 0 <= i < |pipe| ensures StaysOk(T, sent + [m], n, pipe[i]) {
      assert StaysOk(T, sent, n, pipe[i]);
      RightPlaceStable(T, sent, m, n, pipe[i].pack);
    }
  }

  lemma SlotsStable(T: Topology, sent: seq<Message>, m: Message, k: NodeId, n: NodeId, slots: Slots)
    requires SlotsOk(T, sent, k, n, slots)
    ensures SlotsOk(T, sent + [m], k, n, slots)
  {
    hide RightPlace;
    forall c | 0 <= c < |slots| && slots[c].Some? ensures RightPlace(T, sent + [m], k, slots[c].value) {
      RightPlaceStable(T, sent, m, k, slots[c].value);
    }
  }

  lemma QueueStable(T: Topology, sent: seq<Message>, m: Message, q: PortId, c: nat, queue: seq<Packet>)
    requires QueueOk(T, sent, q, c, queue)
    ensures QueueOk(T, sent + [m], q, c, queue)
  {
  }

  lemma PlacesStable(T: Topology, sent: seq<Message>, m: Message, s: Net)
    requires PlacesOk(T, sent, s)
    ensures NodesOk(T, sent + [m], s) && EdgesOk(T, sent + [m], s)
    ensures forall q :: q in s.ports ==> QueuesOk(T, sent + [m], q, s.ports[q])
  {
    hide PipeOk, SlotsOk, QueueOk;
    forall n | n in s.nodes ensures NodeOk(T, sent + [m], n, s.nodes[n]) {
      assert NodeOk(T, sent, n, s.nodes[n]);
      PipeStable(T, sent, m, n, s.nodes[n].pipeline);
    }
    forall l | l in s.edges ensures EdgeOk(T, sent + [m], l, s.edges[l]) {
      assert EdgeOk(T, sent, l, s.edges[l]);
      SlotsStable(T, sent, m, l.0, l.1, s.edges[l].input);
      SlotsStable(T, sent, m, l.0, l.1, s.edges[l].output);
    }
    forall q | q in s.ports ensures QueuesOk(T, sent + [m], q, s.ports[q]) {
      assert QueuesOk(T, sent, q, s.ports[q]);
      forall c | 0 <= c < |s.ports[q].sendBuf| ensures QueueOk(T, sent + [m], q, c, s.ports[q].sendBuf[c]) {
        QueueStable(T, sent, m, q, c, s.ports[q].sendBuf[c]);
      }
    }
  }

  // ----- Accepting a message -----

  /** What `send` has checked when it accepts `m`, for a message whose length does not wrap. */
  ghost predicate Acceptable(T: Topology, h: History, s: Net, m: Message) {
    && MessageOk(T, m) && m.start == s.tick
    && m.src in s.ports && m.dst in s.ports && Queue(s.ports[m.src], m.cha) == []
    && (T.config.slots > 0 ==> ReservedAt(s, m.dst, m.cha) < T.config.slots)
  }

  /** The ports after acceptance, one by one. */
  lemma AcceptedPort(T: Topology, h: History, s: Net, m: Message, q: PortId)
    requires Acceptable(T, h, s, m) && q in s.ports && PortsOk(T, h.sent, s)
    ensures var p, p' := s.ports[q], Accept(T, s, m).ports;
            && q in p' && p'[q].recvBuf == p.recvBuf
            && |p'[q].sendBuf| == |p.sendBuf| && |p'[q].reserved| == |p.reserved|
            && (forall c ::
                  0 <= c < T.Channels() ==>
                    && p'[q].sendBuf[c] ==
                       (if q == m.src && c == m.cha then Packetize(T, m, s.nextXmt) else p.sendBuf[c])
                    && p'[q].reserved[c] ==
                       p.reserved[c] + if T.config.slots > 0 && q == m.dst && c == m.cha then 1 else 0)
  {
    hide Packetize, QueueOk;
    assert QueuesOk(T, h.sent, q, s.ports[q]) && QueuesOk(T, h.sent, m.src, s.ports[m.src])
           && QueuesOk(T, h.sent, m.dst, s.ports[m.dst]);
    assert [] + Packetize(T, m, s.nextXmt) == Packetize(T, m, s.nextXmt);
  }

  lemma AcceptFrame(T: Topology, s: Net, m: Message)
    requires m.cha < T.Channels() && T.widths[m.cha] > 0
    ensures var s' := Accept(T, s, m);
            && s'.nodes == s.nodes && s'.edges == s.edges && s'.ports.Keys == s.ports.Keys
            && s'.tick == s.tick && s'.nextXmt == s.nextXmt + 1
  {
    hide Packetize;
  }

  lemma WholeQueue(T: Topology, sent: seq<Message>, m: Message)
    requires MessageOk(T, m)
    ensures QueueOk(T, sent + [m], m.src, m.cha, Packetize(T, m, |sent|))
  {
    var all := Packetize(T, m, |sent|);
    assert all[0..] == all;
  }

  lemma AcceptPlaces(T: Topology, h: History, s: Net, m: Message)
    requires T.Valid() && PlacesOk(T, h.sent, s) && Acceptable(T, h, s, m) && s.nextXmt == |h.sent|
    ensures PlacesOk(T, h.sent + [m], Accept(T, s, m))
  {
    hide Accept, NodeOk, EdgeOk, QueueOk, Topology.Valid, Packetize, Acceptable, MessageOk;
    assert MessageOk(T, m) && m.cha < T.Channels() && T.widths[m.cha] > 0 by { AcceptableOk(T, h, s, m); }
    PlacesStable(T, h.sent, m, s);
    AcceptFrame(T, s, m);
    var s' := Accept(T, s, m);
    forall q | q in s'.ports ensures QueuesOk(T, h.sent + [m], q, s'.ports[q]) {
      AcceptedPort(T, h, s, m, q);
      assert QueuesOk(T, h.sent + [m], q, s.ports[q]);
      WholeQueue(T, h.sent, m);
    }
  }

  lemma AcceptableOk(T: Topology, h: History, s: Net, m: Message)
    requires Acceptable(T, h, s, m)
    ensures MessageOk(T, m) && m.cha < T.Channels() && T.widths[m.cha] > 0
    ensures m.src in s.ports && m.dst in s.ports && Queue(s.ports[m.src], m.cha) == []
  {
  }

  lemma {:induction false} AheadOnly(T: Topology, s: Net, s': Net, f: Flow, n: NodeId)
    requires s'.nodes == s.nodes && s'.edges == s.edges
    ensures Ahead(T, s', f, n) == Ahead(T, s, f, n)
    decreases T.Dist(n, Target(T, f))
  {
    if n != Target(T, f) && T.Reaches(n, Target(T, f)) {
      Closer(T, n, Target(T, f));
      AheadOnly(T, s, s', f, T.Next(n, Target(T, f)));
    }
  }

  lemma PacketizeFlow(T: Topology, m: Message, x: nat, f: Flow)
    requires MessageOk(T, m)
    ensures OfQueue(Packetize(T, m, x), f) == if MessageFlow(m) == f then Packetize(T, m, x) else []
  {
    hide PacketCount, Chunk;
    var all := Packetize(T, m, x);
    forall i | 0 <= i < |all| ensures FlowOf(all[i]) == MessageFlow(m) {
      assert all[i] == MakePacket(T, m, x, i);
    }
    OfQueueUniform(all, MessageFlow(m), f);
  }

  lemma AcceptTransit(T: Topology, h: History, s: Net, m: Message, f: Flow)
    requires PlacesOk(T, h.sent, s) && Acceptable(T, h, s, m) && s.nextXmt == |h.sent| && FlowOk(T, f)
    ensures Transit(T, Accept(T, s, m), f)
         == Transit(T, s, f) + if MessageFlow(m) == f then Packetize(T, m, |h.sent|) else []
  {
    hide Accept, Ahead, Packetize, OfQueue, NodesOk, EdgesOk;
    AcceptableOk(T, h, s, m);
    AcceptFrame(T, s, m);
    AheadOnly(T, s, Accept(T, s, m), f, Origin(T, f));
    AcceptedPort(T, h, s, m, f.src);
    PacketizeFlow(T, m, |h.sent|, f);
    assert QueuesOk(T, h.sent, f.src, s.ports[f.src]);
    EmptyQueue(f);
    if f.src == m.src && f.cha == m.cha {
      assert QueueAt(s, f.src, f.cha) == [];
      assert QueueAt(Accept(T, s, m), f.src, f.cha) == Packetize(T, m, |h.sent|);
    }
  }

  lemma EmptyQueue(f: Flow)
    ensures OfQueue([], f) == []
  {
  }

  lemma AcceptFlows(T: Topology, h: History, s: Net, m: Message)
    requires PlacesOk(T, h.sent, s) && Acceptable(T, h, s, m) && s.nextXmt == |h.sent| && FlowsOk(T, h.sent, s)
    ensures FlowsOk(T, h.sent + [m], Accept(T, s, m))
    ensures forall f :: FlowOk(T, f) ==> Arrivals(T, h.sent + [m], Accept(T, s, m), f) == Arrivals(T, h.sent, s, f)
  {
    hide PlacesOk, Accept, Transit, FlowPackets, Packetize, FlowOk, Acceptable, MessageOk;
    AcceptableOk(T, h, s, m);
    forall f | FlowOk(T, f)
      ensures InOrder(T, h.sent + [m], Accept(T, s, m), f)
      ensures Arrivals(T, h.sent + [m], Accept(T, s, m), f) == Arrivals(T, h.sent, s, f)
    {
      assert InOrder(T, h.sent, s, f);
      AcceptTransit(T, h, s, m, f);
      SendExtends(T, h.sent, m, f);
      var all, a := FlowPackets(T, h.sent, f), Arrivals(T, h.sent, s, f);
      var more := if MessageFlow(m) == f then Packetize(T, m, |h.sent|) else [];
      assert (all + more)[a..] == all[a..] + more;
    }
  }

  /** The new message has not started to arrive; nothing else has moved. */
  lemma AcceptArrived(T: Topology, h: History, s: Net, m: Message)
    requires SentOk(T, h.sent) && PlacesOk(T, h.sent, s) && Acceptable(T, h, s, m) && s.nextXmt == |h.sent|
             && FlowsOk(T, h.sent, s)
    ensures SentOk(T, h.sent + [m])
    ensures ArrivedSeq(T, h.sent + [m], Accept(T, s, m)) == ArrivedSeq(T, h.sent, s) + [0]
  {
    hide PlacesOk, Accept, Arrivals, FlowOk, Acceptable, MessageOk, FlowsOk, FlowPackets;
    AcceptableOk(T, h, s, m);
    AcceptFlows(T, h, s, m);
    var sent', s' := h.sent + [m], Accept(T, s, m);
    assert SentOk(T, sent');
    forall x | 0 <= x < |sent'|
      ensures Arrived(T, sent', s', x) == if x < |h.sent| then Arrived(T, h.sent, s, x) else 0
    {
      MessageFlowOk(T, sent'[x]);
      assert Arrivals(T, sent', s', MessageFlow(sent'[x])) == Arrivals(T, h.sent, s, MessageFlow(sent'[x]));
      if x < |h.sent| {
        OffsetStable(T, h.sent, m, x);
      } else {
        FlowInOrder(T, h.sent, s, MessageFlow(m));
        assert sent'[..x] == h.sent;
        ArrivalsBound(T, h.sent, s, MessageFlow(m));
      }
    }
  }

  lemma MessageFlowOk(T: Topology, m: Message)
    requires MessageOk(T, m)
    ensures FlowOk(T, MessageFlow(m))
  {
  }

  lemma ArrivalsBound(T: Topology, sent: seq<Message>, s: Net, f: Flow)
    ensures Arrivals(T, sent, s, f) <= |FlowPackets(T, sent, f)|
  {
  }

  lemma OrderStable(T: Topology, sent: seq<Message>, arr: seq<nat>, m: Message, n: NodeId, orderBuf: OrderBuf)
    requires |arr| == |sent| && OrderOk(T, sent, arr, n, orderBuf)
    ensures OrderOk(T, sent + [m], arr + [0], n, orderBuf)
  {
    hide Packetize, Count;
    assert forall x: nat :: Partial(T, sent + [m], arr + [0], n, x) <==> Partial(T, sent, arr, n, x);
  }

  lemma AcceptDone(T: Topology, h: History, arr: seq<nat>, m: Message, ready: seq<nat>, f: Flow)
    requires MessageOk(T, m) && |arr| == |h.sent| && ReceivedOk(h)
             && (forall i :: 0 <= i < |ready| ==> ready[i] < |h.sent|)
    requires DoneOk(T, h, arr, ready, f)
    ensures DoneOk(T, h.(sent := h.sent + [m]), arr + [0], ready, f)
  {
    OfIdsStable(h.sent, m, h.received, f);
    OfIdsStable(h.sent, m, ready, f);
    assert forall x: nat :: Complete(T, h.sent + [m], arr + [0], f, x) <==> Complete(T, h.sent, arr, f, x);
  }

  lemma {:induction false} OutstandingStable(h: History, m: Message, q: PortId, c: nat, n: nat)
    requires n <= |h.sent|
    ensures Outstanding(h.(sent := h.sent + [m]), q, c, n) == Outstanding(h, q, c, n)
  {
    if n > 0 {
      OutstandingStable(h, m, q, c, n - 1);
    }
  }

  lemma AcceptCredit(T: Topology, h: History, s: Net, m: Message)
    requires PlacesOk(T, h.sent, s) && Acceptable(T, h, s, m) && ReceivedOk(h) && CreditOk(T, h, s)
    ensures CreditOk(T, h.(sent := h.sent + [m]), Accept(T, s, m))
  {
    hide Accept, NodesOk, EdgesOk, Outstanding;
    var s', h' := Accept(T, s, m), h.(sent := h.sent + [m]);
    AcceptFrame(T, s, m);
    forall q, c | q in s'.ports && 0 <= c < |s'.ports[q].reserved|
      ensures if T.config.slots > 0 then s'.ports[q].reserved[c] == Outstanding(h', q, c, |h'.sent|) <= T.config.slots
              else s'.ports[q].reserved[c] == 0
    {
      AcceptedPort(T, h, s, m, q);
      RecvWidth(T, h.sent, s, q);
      assert s.ports[q].reserved[c] == if T.config.slots > 0 then Outstanding(h, q, c, |h.sent|) else 0;
      OutstandingStable(h, m, q, c, |h.sent|);
      OutstandingNew(h, m, q, c);
    }
  }

  lemma OutstandingNew(h: History, m: Message, q: PortId, c: nat)
    requires ReceivedOk(h)
    ensures var h' := h.(sent := h.sent + [m]);
            Outstanding(h', q, c, |h.sent| + 1) ==
            Outstanding(h', q, c, |h.sent|) + if m.dst == q && m.cha == c then 1 else 0
  {
  }

  lemma AcceptBuffers(T: Topology, h: History, s: Net, m: Message)
    requires PlacesOk(T, h.sent, s) && Acceptable(T, h, s, m) && BuffersOk(T, h.sent, s)
    ensures BuffersOk(T, h.sent + [m], Accept(T, s, m))
    ensures forall q, c {:trigger RecvAt(s, q, c)} :: RecvAt(Accept(T, s, m), q, c) == RecvAt(s, q, c)
  {
    hide Accept, NodesOk, EdgesOk, Whole, Acceptable;
    AcceptableOk(T, h, s, m);
    AcceptFrame(T, s, m);
    var s' := Accept(T, s, m);
    forall q, c ensures RecvAt(s', q, c) == RecvAt(s, q, c) {
      if q in s.ports {
        AcceptedPort(T, h, s, m, q);
      }
    }
    forall q, c | q in s'.ports && 0 <= c < T.Channels() ensures Whole(T, h.sent + [m], q, c, RecvAt(s', q, c)) {
      assert Whole(T, h.sent, q, c, RecvAt(s, q, c));
      WholeStable(T, h.sent, m, q, c, RecvAt(s, q, c));
    }
  }

  lemma AcceptAllDone(T: Topology, h: History, s: Net, m: Message, arr: seq<nat>)
    requires PlacesOk(T, h.sent, s) && Acceptable(T, h, s, m) && BuffersOk(T, h.sent, s) && ReceivedOk(h)
    requires |arr| == |h.sent| && AllDone(T, h, arr, s)
    ensures AllDone(T, h.(sent := h.sent + [m]), arr + [0], Accept(T, s, m))
  {
    hide Accept, NodesOk, EdgesOk, PortsOk, Whole, Acceptable, DoneOk, RecvAt, ReadyIds;
    AcceptableOk(T, h, s, m);
    AcceptBuffers(T, h, s, m);
    var s' := Accept(T, s, m);
    forall f | FlowOk(T, f)
      ensures DoneOk(T, h.(sent := h.sent + [m]), arr + [0], ReadyIds(RecvAt(s', f.dst, f.cha)), f)
    {
      var ready := ReadyIds(RecvAt(s, f.dst, f.cha));
      assert RecvAt(s', f.dst, f.cha) == RecvAt(s, f.dst, f.cha);
      assert Whole(T, h.sent, f.dst, f.cha, RecvAt(s, f.dst, f.cha));
      ReadyBelongs(T, h.sent, f.dst, f.cha, RecvAt(s, f.dst, f.cha));
      assert forall i :: 0 <= i < |ready| ==> ready[i] in ready;
      AcceptDone(T, h, arr, m, ready, f);
    }
  }

  /** Accepting a message keeps the bus consistent, with the message added to the history. */
  lemma AcceptInv(T: Topology, h: History, s: Net, m: Message)
    requires T.Valid() && Inv(T, h, s) && Acceptable(T, h, s, m)
    ensures Inv(T, h.(sent := h.sent + [m]), Accept(T, s, m))
  {
    hide Topology.Valid, Accept, PlacesOk, FlowsOk, BuffersOk, AllDone, CreditOk, ArrivedSeq, OrderOk, CounterOk,
      Acceptable;
    AcceptableOk(T, h, s, m);
    var h', s', arr := h.(sent := h.sent + [m]), Accept(T, s, m), ArrivedSeq(T, h.sent, s);
    AcceptFrame(T, s, m);
    AcceptPlaces(T, h, s, m);
    AcceptFlows(T, h, s, m);
    AcceptArrived(T, h, s, m);
    AcceptBuffers(T, h, s, m);
    AcceptAllDone(T, h, s, m, arr);
    AcceptCredit(T, h, s, m);
    forall n | n in s'.nodes ensures OrderOk(T, h'.sent, arr + [0], n, s'.nodes[n].orderBuf) {
      OrderStable(T, h.sent, arr, m, n, s.nodes[n].orderBuf);
    }
  }

  // ----- Handing out a message -----

  /** A receive buffer with something in it starts with a whole message. */
  lemma FrontWhole(T: Topology, sent: seq<Message>, q: PortId, c: nat, buf: seq<Packet>)
    requires Whole(T, sent, q, c, buf) && buf != []
    ensures 0 < buf[0].cnt <= |buf| && buf[0].xmt < |sent| && MessageOk(T, sent[buf[0].xmt])
    ensures buf[..buf[0].cnt] == Packetize(T, sent[buf[0].xmt], buf[0].xmt)
    ensures sent[buf[0].xmt].dst == q && sent[buf[0].xmt].cha == c
    ensures Whole(T, sent, q, c, buf[buf[0].cnt..])
    ensures ReadyIds(buf) == [buf[0].xmt] + ReadyIds(buf[buf[0].cnt..])
  {
  }

  /** So `recv` succeeds exactly when the buffer is not empty, and returns the bytes that were sent. */
  lemma FrontIsMessage(T: Topology, h: History, s: Net, q: PortId, c: nat)
    requires Inv(T, h, s) && q in s.ports && c < T.Channels()
    ensures CanRecv(s, q, c) <==> RecvAt(s, q, c) != []
    ensures CanRecv(s, q, c) ==>
              var x := RecvAt(s, q, c)[0].xmt;
              && x < |h.sent| && h.sent[x].dst == q && h.sent[x].cha == c
              && FrontMessage(s, q, c) == h.sent[x].data
              && x !in h.received
              && forall i :: 0 <= i < RecvAt(s, q, c)[0].cnt ==> RecvAt(s, q, c)[i].idx == i
  {
    hide PlacesOk, FlowsOk, ListsOk, CountersOk, CreditOk, AllDone, Whole, ArrivedSeq, Payload;
    var buf := RecvAt(s, q, c);
    assert Whole(T, h.sent, q, c, buf);
    if buf != [] {
      FrontWhole(T, h.sent, q, c, buf);
      var x := buf[0].xmt;
      RejoinsIff(T, h.sent[x], x);
      NotReceivedYet(T, h, s, q, c);
      forall i | 0 <= i < buf[0].cnt ensures buf[i].idx == i {
        assert buf[i] == buf[..buf[0].cnt][i];
      }
    }
  }

  lemma NotReceivedYet(T: Topology, h: History, s: Net, q: PortId, c: nat)
    requires Inv(T, h, s) && q in s.ports && c < T.Channels() && RecvAt(s, q, c) != []
    ensures RecvAt(s, q, c)[0].xmt !in h.received
  {
    hide PlacesOk, FlowsOk, ListsOk, CountersOk, CreditOk, Whole, ArrivedSeq, ReadyIds, Complete, OfIds, RecvAt;
    var buf := RecvAt(s, q, c);
    assert Whole(T, h.sent, q, c, buf);
    FrontWhole(T, h.sent, q, c, buf);
    var x := buf[0].xmt;
    var f := MessageFlow(h.sent[x]);
    MessageFlowOk(T, h.sent[x]);
    assert DoneOk(T, h, ArrivedSeq(T, h.sent, s), ReadyIds(buf), f);
    OnceDone(h, ReadyIds(buf), f, x);
  }

  lemma OnceDone(h: History, ready: seq<nat>, f: Flow, x: nat)
    requires Increasing(DoneIds(h, ready, f)) && x in ready && x < |h.sent| && MessageFlow(h.sent[x]) == f
    ensures x !in h.received
  {
    OfIdsMember(h.sent, h.received, f, x);
    OfIdsMember(h.sent, ready, f, x);
    if x in h.received {
      RepeatedId(OfIds(h.sent, h.received, f), OfIds(h.sent, ready, f), x);
    }
  }

  lemma RepeatedId(a: seq<nat>, b: seq<nat>, x: nat)
    requires x in a && x in b
    ensures !Increasing(a + b)
  {
    var i :| 0 <= i < |a| && a[i] == x;
    var j :| 0 <= j < |b| && b[j] == x;
    assert (a + b)[i] == x && (a + b)[|a| + j] == x;
  }

  /** What handing out a message leaves alone, and what it takes. */
  lemma TakeFrame(T: Topology, sent: seq<Message>, s: Net, q: PortId, c: nat)
    requires PlacesOk(T, sent, s) && CanRecv(s, q, c) && q in s.ports && c < T.Channels()
    ensures var s' := TakeFront(T, s, q, c);
            && s'.nodes == s.nodes && s'.edges == s.edges && s'.ports.Keys == s.ports.Keys && s'.tick == s.tick
            && s'.nextXmt == s.nextXmt
    ensures forall p :: p in s.ports ==> SameShape(s.ports[p], TakeFront(T, s, q, c).ports[p])
    ensures RecvAt(TakeFront(T, s, q, c), q, c) == RecvAt(s, q, c)[RecvAt(s, q, c)[0].cnt..]
    ensures forall p, d :: p != q || d != c ==> RecvAt(TakeFront(T, s, q, c), p, d) == RecvAt(s, p, d)
  {
    hide NodesOk, EdgesOk, QueueOk;
    RecvWidth(T, sent, s, q);
  }

  predicate SameShape(p: Port, p': Port) {
    p'.sendBuf == p.sendBuf && |p'.recvBuf| == |p.recvBuf| && |p'.reserved| == |p.reserved|
  }

  lemma TakeReserved(T: Topology, sent: seq<Message>, s: Net, q: PortId, c: nat, p: PortId, d: nat)
    requires PlacesOk(T, sent, s) && CanRecv(s, q, c) && q in s.ports && c < T.Channels() && p in s.ports
             && d < T.Channels()
    ensures p in TakeFront(T, s, q, c).ports
    ensures |TakeFront(T, s, q, c).ports[p].reserved| == |s.ports[p].reserved| == T.Channels()
    ensures var r := s.ports[p].reserved[d];
            TakeFront(T, s, q, c).ports[p].reserved[d] ==
            if T.config.slots > 0 && p == q && d == c && r > 0 then r - 1 else r
  {
    hide NodesOk, EdgesOk, QueueOk;
    RecvWidth(T, sent, s, p);
  }

  lemma TakePlaces(T: Topology, sent: seq<Message>, s: Net, q: PortId, c: nat)
    requires PlacesOk(T, sent, s) && CanRecv(s, q, c) && q in s.ports && c < T.Channels()
    ensures PlacesOk(T, sent, TakeFront(T, s, q, c))
  {
    hide TakeFront, NodeOk, EdgeOk, QueueOk, CanRecv;
    TakeFrame(T, sent, s, q, c);
    var s' := TakeFront(T, s, q, c);
    forall p | p in s'.ports ensures QueuesOk(T, sent, p, s'.ports[p]) {
      assert QueuesOk(T, sent, p, s.ports[p]) && SameShape(s.ports[p], s'.ports[p]);
    }
  }

  lemma TakeTransit(T: Topology, sent: seq<Message>, s: Net, q: PortId, c: nat, f: Flow)
    requires PlacesOk(T, sent, s) && CanRecv(s, q, c) && q in s.ports && c < T.Channels()
    ensures Transit(T, TakeFront(T, s, q, c), f) == Transit(T, s, f)
  {
    hide TakeFront, PlacesOk, Ahead, OfQueue, CanRecv;
    TakeFrame(T, sent, s, q, c);
    AheadOnly(T, s, TakeFront(T, s, q, c), f, Origin(T, f));
    if f.src in s.ports {
      assert SameShape(s.ports[f.src], TakeFront(T, s, q, c).ports[f.src]);
    }
  }

  lemma TakeFlows(T: Topology, sent: seq<Message>, s: Net, q: PortId, c: nat)
    requires SentOk(T, sent) && PlacesOk(T, sent, s) && CanRecv(s, q, c) && q in s.ports && c < T.Channels()
             && FlowsOk(T, sent, s)
    ensures FlowsOk(T, sent, TakeFront(T, s, q, c))
    ensures ArrivedSeq(T, sent, TakeFront(T, s, q, c)) == ArrivedSeq(T, sent, s)
  {
    hide TakeFront, PlacesOk, CanRecv, Transit, FlowPackets;
    forall f ensures Transit(T, TakeFront(T, s, q, c), f) == Transit(T, s, f) {
      TakeTransit(T, sent, s, q, c, f);
    }
  }

  lemma TakeBuffers(T: Topology, sent: seq<Message>, s: Net, q: PortId, c: nat)
    requires PlacesOk(T, sent, s) && CanRecv(s, q, c) && q in s.ports && c < T.Channels() && BuffersOk(T, sent, s)
    ensures BuffersOk(T, sent, TakeFront(T, s, q, c))
  {
    hide TakeFront, PlacesOk, RecvAt, Whole;
    TakeFrame(T, sent, s, q, c);
    var s' := TakeFront(T, s, q, c);
    forall p, d | p in s'.ports && 0 <= d < T.Channels() ensures Whole(T, sent, p, d, RecvAt(s', p, d)) {
      assert Whole(T, sent, p, d, RecvAt(s, p, d));
      if p == q && d == c {
        FrontWhole(T, sent, q, c, RecvAt(s, q, c));
      }
    }
  }

  lemma TakeDone(T: Topology, h: History, s: Net, q: PortId, c: nat, arr: seq<nat>)
    requires PlacesOk(T, h.sent, s) && CanRecv(s, q, c) && q in s.ports && c < T.Channels() && BuffersOk(T, h.sent, s)
    requires AllDone(T, h, arr, s)
    ensures AllDone(T, h.(received := h.received + [RecvAt(s, q, c)[0].xmt]), arr, TakeFront(T, s, q, c))
  {
    hide TakeFront, PlacesOk, RecvAt, Whole, ReadyIds, DoneIds;
    TakeFrame(T, h.sent, s, q, c);
    assert Whole(T, h.sent, q, c, RecvAt(s, q, c));
    FrontWhole(T, h.sent, q, c, RecvAt(s, q, c));
    var x := RecvAt(s, q, c)[0].xmt;
    var s', h' := TakeFront(T, s, q, c), h.(received := h.received + [x]);
    forall f | FlowOk(T, f) ensures DoneOk(T, h', arr, ReadyIds(RecvAt(s', f.dst, f.cha)), f) {
      var ready := ReadyIds(RecvAt(s, f.dst, f.cha));
      assert DoneOk(T, h, arr, ready, f);
      if f.dst == q && f.cha == c {
        DoneReceives(h, ready, f);
      } else {
        DoneElsewhere(h, ready, f, x);
      }
    }
  }

  lemma DoneElsewhere(h: History, ready: seq<nat>, f: Flow, x: nat)
    requires x < |h.sent| && MessageFlow(h.sent[x]) != f
    ensures DoneIds(h.(received := h.received + [x]), ready, f) == DoneIds(h, ready, f)
  {
    OfIdsConcat(h.sent, h.received, [x], f);
  }

  lemma {:induction false} OutstandingReceives(h: History, q: PortId, c: nat, x: nat, n: nat)
    requires x < |h.sent| && n <= |h.sent| && h.sent[x].dst == q && h.sent[x].cha == c && x !in h.received
    ensures Outstanding(h, q, c, n) == Outstanding(h.(received := h.received + [x]), q, c, n) + if x < n then 1 else 0
  {
    if n > 0 {
      OutstandingReceives(h, q, c, x, n - 1);
    }
  }

  lemma {:induction false} OutstandingElsewhere(h: History, q: PortId, c: nat, x: nat, n: nat)
    requires x < |h.sent| && n <= |h.sent| && (h.sent[x].dst != q || h.sent[x].cha != c)
    ensures Outstanding(h.(received := h.received + [x]), q, c, n) == Outstanding(h, q, c, n)
  {
    if n > 0 {
      OutstandingElsewhere(h, q, c, x, n - 1);
    }
  }

  lemma TakeCredit(T: Topology, h: History, s: Net, q: PortId, c: nat, x: nat)
    requires PlacesOk(T, h.sent, s) && CanRecv(s, q, c) && q in s.ports && c < T.Channels() && CreditOk(T, h, s)
    requires x < |h.sent| && h.sent[x].dst == q && h.sent[x].cha == c && x !in h.received
    ensures CreditOk(T, h.(received := h.received + [x]), TakeFront(T, s, q, c))
    ensures T.config.slots > 0 ==> ReservedAt(s, q, c) > 0
  {
    hide TakeFront, NodesOk, EdgesOk, Outstanding, CanRecv, QueueOk;
    var s', h' := TakeFront(T, s, q, c), h.(received := h.received + [x]);
    TakeFrame(T, h.sent, s, q, c);
    RecvWidth(T, h.sent, s, q);
    OutstandingReceives(h, q, c, x, |h.sent|);
    assert s.ports[q].reserved[c] == if T.config.slots > 0 then Outstanding(h, q, c, |h.sent|) else 0;
    forall p, d | p in s'.ports && 0 <= d < |s'.ports[p].reserved|
      ensures if T.config.slots > 0 then s'.ports[p].reserved[d] == Outstanding(h', p, d, |h'.sent|) <= T.config.slots
              else s'.ports[p].reserved[d] == 0
    {
      RecvWidth(T, h.sent, s, p);
      assert SameShape(s.ports[p], s'.ports[p]);
      TakeReserved(T, h.sent, s, q, c, p, d);
      assert s.ports[p].reserved[d] == if T.config.slots > 0 then Outstanding(h, p, d, |h.sent|) else 0;
      if p != q || d != c {
        OutstandingElsewhere(h, p, d, x, |h.sent|);
      }
    }
  }

  lemma TakeNodes(T: Topology, h: History, s: Net, q: PortId, c: nat)
    requires PlacesOk(T, h.sent, s) && CanRecv(s, q, c) && q in s.ports && c < T.Channels()
    requires SentOk(T, h.sent) && ListsOk(T, h.sent, ArrivedSeq(T, h.sent, s), s) && CountersOk(T, s)
    ensures ListsOk(T, h.sent, ArrivedSeq(T, h.sent, s), TakeFront(T, s, q, c)) && CountersOk(T, TakeFront(T, s, q, c))
  {
    hide TakeFront, PlacesOk, ArrivedSeq, OrderOk, CounterOk, CanRecv;
    TakeFrame(T, h.sent, s, q, c);
  }

  /**
   Handing out the message at the front of a receive buffer keeps the bus consistent, with the message recorded as
   received.
   */
  lemma TakeInv(T: Topology, h: History, s: Net, q: PortId, c: nat)
    requires T.Valid() && Inv(T, h, s) && CanRecv(s, q, c) && q in s.ports && c < T.Channels()
    ensures Inv(T, h.(received := h.received + [RecvAt(s, q, c)[0].xmt]), TakeFront(T, s, q, c))
    ensures T.config.slots > 0 ==> ReservedAt(s, q, c) > 0
  {
    hide Topology.Valid, TakeFront, PlacesOk, FlowsOk, BuffersOk, AllDone, CreditOk, ArrivedSeq, OrderOk, CounterOk,
      FrontMessage, RecvAt, CanRecv, SentOk;
    TakeNodes(T, h, s, q, c);
    TakeFrame(T, h.sent, s, q, c);
    FrontIsMessage(T, h, s, q, c);
    TakePlaces(T, h.sent, s, q, c);
    TakeFlows(T, h.sent, s, q, c);
    TakeBuffers(T, h.sent, s, q, c);
    TakeDone(T, h, s, q, c, ArrivedSeq(T, h.sent, s));
    TakeCredit(T, h, s, q, c, RecvAt(s, q, c)[0].xmt);
  }
}
