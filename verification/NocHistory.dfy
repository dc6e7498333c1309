/** The packets a flow has been sent so far, and how many packets of each message have arrived. */
module NocHistory {
  import opened NocState
  import opened NocInvariant

  /** The packets of message `m`, accepted under transfer id `x`. */
  function PacketsOf(T: Topology, m: Message, x: nat): seq<Packet> {
    if MessageOk(T, m) then Packetize(T, m, x) else []
  }

  /** Every packet of flow `f`, in the order in which `send` produced them. */
  function FlowPackets(T: Topology, sent: seq<Message>, f: Flow): seq<Packet> {
    if sent == [] then []
    else
      var m, x := sent[|sent| - 1], |sent| - 1;
      FlowPackets(T, sent[..x], f) + if MessageFlow(m) == f then PacketsOf(T, m, x) else []
  }

  /** Where the packets of message `x` start among the packets of its flow. */
  function Offset(T: Topology, sent: seq<Message>, x: nat): nat
    requires x < |sent|
  {
    |FlowPackets(T, sent[..x], MessageFlow(sent[x]))|
  }

  /** The packets of message `x` stand together, in index order, at its offset. */
  lemma PacketizeLength(T: Topology, m: Message, x: nat)
    requires MessageOk(T, m)
    ensures |Packetize(T, m, x)| == Count(T, m)
  {
  }

  lemma {:induction false} PacketsAtOffset(T: Topology, sent: seq<Message>, x: nat)
    requires SentOk(T, sent) && x < |sent|
    ensures var all, o := FlowPackets(T, sent, MessageFlow(sent[x])), Offset(T, sent, x);
            o + Count(T, sent[x]) <= |all| && all[o..o + Count(T, sent[x])] == Packetize(T, sent[x], x)
    decreases |sent|
  {
    hide Packetize, PacketCount;
    var init, last, f := sent[..|sent| - 1], |sent| - 1, MessageFlow(sent[x]);
    var before, all := FlowPackets(T, init, f), FlowPackets(T, sent, f);
    assert all[..|before|] == before;
    if x < last {
      PacketsAtOffset(T, init, x);
      assert init[..x] == sent[..x];
      assert all[Offset(T, sent, x)..Offset(T, sent, x) + Count(T, sent[x])]
          == before[Offset(T, sent, x)..Offset(T, sent, x) + Count(T, sent[x])];
    } else {
      PacketizeLength(T, sent[x], x);
      assert all == before + Packetize(T, sent[x], x);
    }
  }

  /** Every packet of a flow is genuine and stands where its message's offset and its index say. */
  lemma {:induction false} PacketPosition(T: Topology, sent: seq<Message>, f: Flow, j: nat)
    requires SentOk(T, sent) && j < |FlowPackets(T, sent, f)|
    ensures var p := FlowPackets(T, sent, f)[j];
            Genuine(T, sent, p) && FlowOf(p) == f && j == Offset(T, sent, p.xmt) + p.idx
    decreases |sent|
  {
    var init, last := sent[..|sent| - 1], |sent| - 1;
    if j < |FlowPackets(T, init, f)| {
      PacketPosition(T, init, f, j);
      var p := FlowPackets(T, init, f)[j];
      assert init[..p.xmt] == sent[..p.xmt];
    }
  }

  /** Messages of one flow do not overlap: the earlier one lies entirely before the later one. */
  lemma {:induction false} OffsetsGrow(T: Topology, sent: seq<Message>, x: nat, y: nat)
    requires SentOk(T, sent) && x < y < |sent| && MessageFlow(sent[x]) == MessageFlow(sent[y])
    ensures Offset(T, sent, x) + Count(T, sent[x]) <= Offset(T, sent, y)
  {
    assert sent[..y][..x] == sent[..x];
    PacketsAtOffset(T, sent[..y], x);
  }

  // ----- Arrivals -----

  /** How many packets of the flow have reached the destination node. */
  ghost function Arrivals(T: Topology, sent: seq<Message>, s: Net, f: Flow): int {
    |FlowPackets(T, sent, f)| - |Transit(T, s, f)|
  }

  /** The packets in transit are exactly the packets sent and not yet arrived, in the order they were sent. */
  ghost predicate InOrder(T: Topology, sent: seq<Message>, s: Net, f: Flow) {
    && 0 <= Arrivals(T, sent, s, f)
    && Transit(T, s, f) == FlowPackets(T, sent, f)[Arrivals(T, sent, s, f)..]
  }

  function Clamp(v: int, high: nat): nat {
    if v < 0 then 0 else if v > high then high else v
  }

  /** How many packets of message `x` have arrived, when `arrivals` packets of its flow have. */
  function ArrivedOf(T: Topology, sent: seq<Message>, x: nat, arrivals: int): nat
    requires x < |sent| && MessageOk(T, sent[x])
  {
    Clamp(arrivals - Offset(T, sent, x), Count(T, sent[x]))
  }

  ghost function Arrived(T: Topology, sent: seq<Message>, s: Net, x: nat): nat
    requires x < |sent| && MessageOk(T, sent[x])
  {
    ArrivedOf(T, sent, x, Arrivals(T, sent, s, MessageFlow(sent[x])))
  }

  /** The next arrival of a flow is the next packet of its oldest incomplete message. */
  lemma NextArrival(T: Topology, sent: seq<Message>, f: Flow, a: nat)
    requires SentOk(T, sent) && a < |FlowPackets(T, sent, f)|
    ensures var p := FlowPackets(T, sent, f)[a];
            && Genuine(T, sent, p) && FlowOf(p) == f && MessageFlow(sent[p.xmt]) == f
            && p.idx == ArrivedOf(T, sent, p.xmt, a) && ArrivedOf(T, sent, p.xmt, a + 1) == p.idx + 1
            && forall y :: 0 <= y < |sent| && y != p.xmt && MessageFlow(sent[y]) == f ==>
                             ArrivedOf(T, sent, y, a + 1) == ArrivedOf(T, sent, y, a)
  {
    PacketPosition(T, sent, f, a);
    var p := FlowPackets(T, sent, f)[a];
    forall y | 0 <= y < |sent| && y != p.xmt && MessageFlow(sent[y]) == f
      ensures ArrivedOf(T, sent, y, a + 1) == ArrivedOf(T, sent, y, a)
    {
      if y < p.xmt {
        OffsetsGrow(T, sent, y, p.xmt);
      } else {
        OffsetsGrow(T, sent, p.xmt, y);
      }
    }
  }

  /** Messages of one flow complete in the order they were sent. */
  lemma CompleteInOrder(T: Topology, sent: seq<Message>, x: nat, y: nat, a: int)
    requires SentOk(T, sent) && x < y < |sent| && MessageFlow(sent[x]) == MessageFlow(sent[y])
    requires ArrivedOf(T, sent, y, a) > 0
    ensures ArrivedOf(T, sent, x, a) == Count(T, sent[x])
  {
    OffsetsGrow(T, sent, x, y);
  }

  // ----- Sending -----

  lemma SendExtends(T: Topology, sent: seq<Message>, m: Message, f: Flow)
    requires MessageOk(T, m)
    ensures FlowPackets(T, sent + [m], f)
         == FlowPackets(T, sent, f) + if MessageFlow(m) == f then Packetize(T, m, |sent|) else []
  {
    assert (sent + [m])[..|sent|] == sent;
  }

  lemma OffsetStable(T: Topology, sent: seq<Message>, m: Message, x: nat)
    requires x < |sent|
    ensures Offset(T, sent + [m], x) == Offset(T, sent, x)
  {
    assert (sent + [m])[..x] == sent[..x];
  }

}
