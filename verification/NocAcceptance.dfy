/** When `send` accepts a message, told by the fields of the bus and the history, and what it answers otherwise. */
module NocAcceptance {
  import opened Arith
  import opened Wrappers
  import opened RouteTable
  import opened NocState
  import opened NocInvariant
  import opened NocPayload
  import opened NocSystem
  import opened NocRuns

  /** The queue is empty, and with congestion control the node is not congested and may buffer another packet. */
  ghost predicate SourceFree(T: Topology, s: Net, q: PortId, c: nat) {
    && q in s.ports && c < |s.ports[q].sendBuf| && s.ports[q].sendBuf[c] == []
    && (T.config.congestion.enabled ==>
          && T.NodeOf(q) in s.nodes && !s.nodes[T.NodeOf(q)].congested
          && |s.nodes[T.NodeOf(q)].pipeline| < T.config.congestion.limit)
  }

  /** With bounded reception: the message is not too long, and fewer messages than there are slots are outstanding. */
  predicate SizeAllowed(T: Topology, m: Message) { T.config.slots > 0 ==> |m.data| <= T.config.maxBytes }

  predicate CreditLeft(T: Topology, h: History, m: Message) {
    T.config.slots > 0 ==> Outstanding(h, m.dst, m.cha, |h.sent|) < T.config.slots
  }

  /**
   More than 65535 packets are needed. The size counts modulo 2^32, and sizes whose sum with a packet width exceeds 2^32
   never need any.
   */
  predicate TooLong(size: nat, width: nat) {
    var size32 := (if size == 0 then 1 else size) % 0x1_0000_0000;
    size32 + width <= 0x1_0000_0000 && size32 > 65535 * width
  }

  lemma TooLongIff(size: nat, width: nat)
    requires 0 < width <= 65536
    ensures PacketCount(size, width) > MAX_PACKETS <==> TooLong(size, width)
  {
    var size32 := (if size == 0 then 1 else size) % WORD32;
    var sum := (size32 + width - 1) % WORD32;
    var k := sum / width;
    DivModFacts(sum, width);
    CutToMultiple(sum, width);
    assert PacketCount(size, width) == k;
    if size32 + width <= WORD32 {
      NoWrap(size32 + width - 1);
      if k >= 65536 {
        MulMonotone(65536, k, width);
      } else {
        MulMonotone(k, 65535, width);
      }
    } else {
      DivUnique(size32 + width - 1, WORD32, 1);
      DivUnique(sum, width, 0);
    }
  }

  /** For sizes that fit 32 bits with a packet width: the least number of packets that covers them is too large. */
  lemma FewestTooMany(size: nat, width: nat)
    requires 0 < width <= 65536 && SizeFits(size, width)
    ensures TooLong(size, width) <==> forall k: nat :: k <= 65535 ==> k * width < size
  {
    if size > 65535 * width {
      forall k: nat | k <= 65535 ensures k * width < size {
        MulMonotone(k, 65535, width);
      }
    } else {
      assert !(65535 * width < size);
    }
    if size > 0 {
      NoWrap(size);
    }
  }

  /** All that `send` can answer, and when: every check in its turn, the others before it passed. */
  ghost predicate Answers(T: Topology, h: History, s: Net, m: Message, r: Result<bool, NocError>) {
    if m.src !in T.port2node then r == Failure(UnknownPort(m.src))
    else if m.dst !in T.port2node then r == Failure(UnknownPort(m.dst))
    else if m.cha >= |T.widths| then r == Failure(UnknownChannel(m.cha))
    else
      && (r == Success(true) <==>
          && SourceFree(T, s, m.src, m.cha) && SizeAllowed(T, m) && CreditLeft(T, h, m)
          && !TooLong(|m.data|, T.widths[m.cha]))
      && (r == Failure(MessageTooLong) <==> SourceFree(T, s, m.src, m.cha) && !SizeAllowed(T, m))
      && (r == Failure(TooManyPackets) <==>
          && SourceFree(T, s, m.src, m.cha) && SizeAllowed(T, m) && CreditLeft(T, h, m)
          && TooLong(|m.data|, T.widths[m.cha]))
      && (r == Success(false) <==>
          !SourceFree(T, s, m.src, m.cha) || (SizeAllowed(T, m) && !CreditLeft(T, h, m)))
  }

  /** In a consistent state these fields decide whether the port can send. */
  lemma CanSendIff(T: Topology, h: History, s: Net, q: PortId, c: nat)
    requires T.Valid() && Inv(T, h, s) && q in s.ports && c < T.Channels()
    ensures T.NodeOf(q) in s.nodes && (CanSend(T, s, q, c) <==> SourceFree(T, s, q, c))
  {
    hide Inv, Topology.Valid;
    InvPlaces(T, h, s);
    KnownPort(T, h.sent, s, q);
    CounterIs(T, h, s, T.NodeOf(q));
  }

  lemma PortAnswers(T: Topology, h: History, s: Net, q: PortId, c: nat)
    requires T.Valid() && Inv(T, h, s)
    ensures q in s.ports ==> T.NodeOf(q) in s.nodes
    ensures q in s.ports && c < T.Channels() ==> (CanSend(T, s, q, c) <==> SourceFree(T, s, q, c))
  {
    hide Inv, Topology.Valid, CanSend, SourceFree;
    InvPlaces(T, h, s);
    if q in s.ports {
      KnownPort(T, h.sent, s, q);
      if c < T.Channels() {
        CanSendIff(T, h, s, q, c);
      }
    }
  }

  lemma KnownPort(T: Topology, sent: seq<Message>, s: Net, q: PortId)
    requires PlacesOk(T, sent, s) && q in s.ports
    ensures T.NodeOf(q) in s.nodes && |s.ports[q].sendBuf| == |s.ports[q].reserved| == T.Channels()
  {
    hide NodesOk, EdgesOk, QueueOk;
    assert QueuesOk(T, sent, q, s.ports[q]);
  }

  lemma CreditIs(T: Topology, h: History, s: Net, q: PortId, c: nat)
    requires T.Valid() && Inv(T, h, s) && q in s.ports && c < T.Channels() && T.config.slots > 0
    ensures c < |s.ports[q].reserved| && ReservedAt(s, q, c) == Outstanding(h, q, c, |h.sent|)
  {
    hide PlacesOk, FlowsOk, ListsOk, BuffersOk, AllDone, CountersOk, ArrivedSeq, Topology.Valid, Outstanding;
    KnownPort(T, h.sent, s, q);
    assert s.ports[q].reserved[c] == s.ports[q].reserved[c];
  }

  /** What `send` answers in any consistent state. */
  lemma SendAnswers(T: Topology, h: History, s: Net, m: Message)
    requires T.Valid() && Inv(T, h, s)
    ensures Wired(T, s) && Answers(T, h, s, m, SendOutcome(T, s, m))
  {
    hide Inv, CanSend, SourceFree, PacketCount, TooLong, Outstanding, ReservedAt, AllReachable, Topology.WiringValid;
    InvPlaces(T, h, s);
    WiredNodes(T, h.sent, s);
    if m.src in s.ports && m.dst in s.ports && m.cha < T.Channels() {
      CanSendIff(T, h, s, m.src, m.cha);
      TooLongIff(|m.data|, T.widths[m.cha]);
      if T.config.slots > 0 {
        CreditIs(T, h, s, m.dst, m.cha);
      }
    }
  }

  /**
   A message between known ports is accepted, and recorded as sent, exactly if its queue is empty, the node neither
   congested nor full, the message of an allowed size with a credit left, and coverable by 65535 packets; otherwise
   nothing changes.
   */
  lemma AcceptedIff(T: Topology, st: State, op: Op)
    requires T.Valid() && Good(T, st) && Wired(T, st.net) && op.SendOp?
    requires op.src in T.port2node && op.dst in T.port2node && op.cha < |T.widths|
    ensures if && SourceFree(T, st.net, op.src, op.cha) && SizeAllowed(T, MessageOf(st, op))
               && CreditLeft(T, st.hist, MessageOf(st, op)) && !TooLong(|op.data|, T.widths[op.cha])
            then Step(T, st, op).hist.sent == st.hist.sent + [Message(op.src, op.dst, op.cha, op.data, st.net.tick)]
            else Step(T, st, op) == st
  {
    hide Inv, Topology.Valid, SendOutcome, Accept, TooLong, Outstanding, SourceFree, SizeAllowed, CreditLeft;
    SendAnswers(T, st.hist, st.net, MessageOf(st, op));
  }
}
