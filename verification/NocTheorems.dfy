/** What holds in every run of the bus from its empty state, stated for a user of the bus. */
module NocTheorems {
  import opened Wrappers
  import opened RouteTable
  import opened NocState
  import opened NocInvariant
  import opened NocReassembly
  import opened NocSystem
  import opened NocEndpoints
  import opened NocConservation
  import opened NocDrain
  import opened NocProgress
  import opened NocRuns
  import opened NocAcceptance
  import NocTurns
  import opened NocBandwidth
  import opened NocWideLinks

  /** The state after `ops`, starting from the empty bus. */
  ghost function After(T: Topology, ops: seq<Op>): (end: State)
    requires T.Valid() && RunFits(T, Initial(T), ops)
    ensures Good(T, end)
  {
    InitialGood(T);
    Run(T, Initial(T), ops)
  }

  /** First in, first out: per flow, the received messages are a prefix of the accepted ones, in order. */
  lemma FirstInFirstOut(T: Topology, ops: seq<Op>, f: Flow)
    requires T.Valid() && RunFits(T, Initial(T), ops) && FlowOk(T, f)
    ensures var h := After(T, ops).hist; OfIds(h.sent, h.received, f) <= SentOf(h.sent, f)
  {
    hide After, Inv, Topology.Valid, RunFits, Initial;
    ReceivedInOrder(T, After(T, ops), f);
  }

  /**
   Conservation: every packet of an accepted, unreceived message is in exactly one place, and nothing else is anywhere.
   */
  lemma NothingLostNothingDuplicated(T: Topology, ops: seq<Op>)
    requires T.Valid() && RunFits(T, Initial(T), ops)
    ensures var st := After(T, ops);
            && SentOk(T, st.hist.sent)
            && (forall x, i ::
                  0 <= x < |st.hist.sent| && 0 <= i < Count(T, st.hist.sent[x]) && x !in st.hist.received ==>
                    Placed(st.net, MakePacket(T, st.hist.sent[x], x, i)))
            && (forall pl, pl' :: At(st.net, pl).Some? && At(st.net, pl) == At(st.net, pl') ==> pl == pl')
            && (forall pl ::
                  At(st.net, pl).Some? ==>
                    Genuine(T, st.hist.sent, At(st.net, pl).value) && At(st.net, pl).value.xmt !in st.hist.received)
  {
    hide After, Inv, Topology.Valid, RunFits, Initial, At, Genuine, MakePacket;
    var st := After(T, ops);
    InvSent(T, st.hist, st.net);
    ExactlyOnePlace(T, st.hist, st.net);
  }

  /**
   Bounded buffers: with congestion control a node's counter is the length of its pipeline and never exceeds the limit.
   */
  lemma BuffersBounded(T: Topology, ops: seq<Op>, n: NodeId)
    requires T.Valid() && RunFits(T, Initial(T), ops)
    ensures var net := After(T, ops).net;
            n in net.nodes && T.config.congestion.enabled ==>
              net.nodes[n].buffered == |net.nodes[n].pipeline| <= T.config.congestion.limit
  {
    hide After, Topology.Valid, RunFits, Initial, PlacesOk, FlowsOk, ListsOk, BuffersOk, AllDone, CreditOk, SentOk;
    var net := After(T, ops).net;
    if n in net.nodes {
      assert CounterOk(T, net.nodes[n]);
    }
  }

  /**
   Acceptance: in every run, the next message between known ports is accepted exactly if its queue is empty, the node
   neither congested nor full, a credit left, and the message neither longer than allowed nor than 65535 packets.
   */
  lemma AcceptedExactly(T: Topology, ops: seq<Op>, op: Op)
    requires T.Valid() && RunFits(T, Initial(T), ops) && op.SendOp?
    requires op.src in T.port2node && op.dst in T.port2node && op.cha < |T.widths|
    ensures var st := After(T, ops);
            && Wired(T, st.net)
            && if && SourceFree(T, st.net, op.src, op.cha) && SizeAllowed(T, MessageOf(st, op))
                  && CreditLeft(T, st.hist, MessageOf(st, op)) && !TooLong(|op.data|, T.widths[op.cha])
               then Step(T, st, op).hist.sent == st.hist.sent + [Message(op.src, op.dst, op.cha, op.data, st.net.tick)]
               else Step(T, st, op) == st
  {
    hide After, Inv, Topology.Valid, RunFits, Initial, SourceFree, TooLong, Step, Outstanding;
    var st := After(T, ops);
    InvPlaces(T, st.hist, st.net);
    AcceptedIff(T, st, op);
  }

  /**
   Admission: in every run, the packet whose turn it is at a node is delivered if this is its destination, however
   full the node is, and otherwise enters the node exactly if that may buffer it.
   */
  lemma AdmittedExactly(T: Topology, ops: seq<Op>, n: NodeId, pl: Place, p: Packet)
    requires T.Valid() && RunFits(T, Initial(T), ops)
    requires NocTurns.HasTurn(T, After(T, ops).net, n, pl) && At(After(T, ops).net, pl) == Some(p)
    ensures var s, s' := After(T, ops).net, Tick(T, After(T, ops).net);
            if p.tgt == n then At(s', pl) != Some(p) && NocTurns.Arrives(s', n, p)
            else if !T.config.congestion.enabled || |PipeAt(s, n)| < T.config.congestion.limit
            then At(s', pl) != Some(p) && NocTurns.Enters(T, s', n, p)
            else At(s', pl) == Some(p)
  {
    hide After, Inv, Topology.Valid, RunFits, Initial, NocTurns.HasTurn, At, NocTurns.Arrives, NocTurns.Enters;
    NocTurns.Admission(T, After(T, ops).hist, After(T, ops).net, n, pl, p);
  }

  /** Credits: with bounded reception the reservations count the outstanding messages, and never exceed the slots. */
  lemma CreditsExact(T: Topology, ops: seq<Op>, q: PortId, c: nat)
    requires T.Valid() && RunFits(T, Initial(T), ops) && T.config.slots > 0
    ensures var st := After(T, ops);
            q in st.net.ports && c < |st.net.ports[q].reserved| ==>
              st.net.ports[q].reserved[c] == Outstanding(st.hist, q, c, |st.hist.sent|) <= T.config.slots
  {
    hide After, Topology.Valid, RunFits, Initial, PlacesOk, FlowsOk, ListsOk, BuffersOk, AllDone, CountersOk, SentOk,
      Outstanding;
    var st := After(T, ops);
    if q in st.net.ports && c < |st.net.ports[q].reserved| {
      assert st.net.ports[q].reserved[c] == st.net.ports[q].reserved[c];
    }
  }

  /**
   A port can receive exactly when its buffer is not empty, and then gets the bytes of an accepted, unreceived message.
   */
  lemma ReceivableIsWhole(T: Topology, ops: seq<Op>, q: PortId, c: nat)
    requires T.Valid() && RunFits(T, Initial(T), ops) && c < T.Channels()
    ensures var st := After(T, ops);
            q in st.net.ports ==>
              && (CanRecv(st.net, q, c) <==> RecvAt(st.net, q, c) != [])
              && (CanRecv(st.net, q, c) ==>
                    var x := RecvAt(st.net, q, c)[0].xmt;
                    && x < |st.hist.sent| && x !in st.hist.received && st.hist.sent[x].dst == q
                    && st.hist.sent[x].cha == c
                    && FrontMessage(st.net, q, c) == st.hist.sent[x].data)
  {
    hide After, Inv, Topology.Valid, RunFits, Initial, CanRecv, RecvAt, FrontMessage;
    var st := After(T, ops);
    if q in st.net.ports {
      FrontIsMessage(T, st.hist, st.net, q, c);
    }
  }

  /** Drain: once nothing more is sent and there is room, ticks alone make every accepted message receivable. */
  lemma EveryMessageArrives(T: Topology, ops: seq<Op>) returns (n: nat)
    requires T.Valid() && RunFits(T, Initial(T), ops)
    requires SentOk(T, After(T, ops).hist.sent) && Room(T, After(T, ops).hist.sent, After(T, ops).net)
    ensures var st := After(T, ops);
            && n <= Measure(T, st.hist.sent, st.net, |st.hist.sent|)
            && forall x :: 0 <= x < |st.hist.sent| && x !in st.hist.received ==>
                             x in ReadyIds(RecvAt(Ticks(T, st.net, n), st.hist.sent[x].dst, st.hist.sent[x].cha))
  {
    hide After, Inv, Topology.Valid, RunFits, Initial, RecvAt, ReadyIds, Measure, Room, Ticks;
    var st := After(T, ops);
    n := Drains(T, st.hist, st.net);
  }

  /**
   Bandwidth: in every tick of every run each link moves at most its width in bytes, or one packet that is wider, lowest
   channels first; and a link that two packets of the largest width fit through keeps none back.
   */
  lemma LinkBandwidth(T: Topology, ops: seq<Op>, l: Link)
    requires T.Valid() && RunFits(T, Initial(T), ops)
    ensures var s, w := After(T, ops).net, T.config.linkWidth;
            l in s.edges ==>
              && WithinBudget(w, EdgeAt(NodePhase(T, s), l), EdgeAt(Tick(T, s), l))
              && (WIDE <= w ==> forall c :: 0 <= c < T.Channels() ==> !Ready(EdgeAt(Tick(T, s), l), c))
  {
    hide Inv, Topology.Valid, RunFits, Initial, WideOk, Tick, NodePhase, WithinBudget, Ready;
    InitialGood(T);
    InitialWide(T);
    RunWide(T, Initial(T), ops);
    var st := Run(T, Initial(T), ops);
    if l in st.net.edges {
      TickBudget(T, st, l);
      hide WideState;
      ClearAll(EdgeAt(Tick(T, st.net), l));
    }
  }

  lemma ClearAll(e: Edge)
    ensures Clear(e) ==> forall c: nat :: !Ready(e, c)
  {
  }
}