/** Runs of the bus: any interleaving of sends, receives and ticks from the empty state. */
module NocRuns {
  import opened Arith
  import opened Wrappers
  import opened RouteTable
  import opened NocState
  import opened NocInvariant
  import opened NocHistory
  import opened NocPayload
  import opened NocReassembly
  import opened NocSystem
  import opened NocTick
  import opened NocEndpoints

  datatype Op = TickOp | SendOp(src: PortId, dst: PortId, cha: nat, data: seq<byte>) | RecvOp(port: PortId, cha: nat)

  /** A network together with what has been accepted and handed out so far. */
  datatype State = State(net: Net, hist: History)

  function EmptyNet(T: Topology): Net {
    Net(map n | n in T.nodes :: Node([], map[], 0, 0, 0, false),
        map p | p in T.port2node ::
          Port(seq(T.Channels(), _ => []), seq(T.Channels(), _ => []), seq(T.Channels(), _ => 0)),
        map l | l in T.links :: Edge(seq(T.Channels(), _ => None), seq(T.Channels(), _ => None)),
        0, 0)
  }

  function Initial(T: Topology): State { State(EmptyNet(T), History([], [])) }

  /** The message an accepted `SendOp` adds. */
  function MessageOf(st: State, op: Op): Message
    requires op.SendOp?
  {
    Message(op.src, op.dst, op.cha, op.data, st.net.tick)
  }

  ghost predicate Accepted(T: Topology, st: State, op: Op)
    requires T.Valid() && Wired(T, st.net)
  {
    op.SendOp? && SendOutcome(T, st.net, MessageOf(st, op)) == Success(true)
  }

  ghost predicate Handing(T: Topology, st: State, op: Op) {
    op.RecvOp? && op.port in st.net.ports && op.cha < T.Channels() && CanRecv(st.net, op.port, op.cha)
  }

  ghost function Step(T: Topology, st: State, op: Op): State
    requires T.Valid() && Wired(T, st.net)
  {
    if op.TickOp? then st.(net := Tick(T, st.net))
    else if Accepted(T, st, op) then
      State(Accept(T, st.net, MessageOf(st, op)), st.hist.(sent := st.hist.sent + [MessageOf(st, op)]))
    else if Handing(T, st, op) then
      State(TakeFront(T, st.net, op.port, op.cha),
            st.hist.(received := st.hist.received + [RecvAt(st.net, op.port, op.cha)[0].xmt]))
    else st
  }

  /**
   A message that is accepted has a length that does not wrap around 32 bits; `NocPayload.RejoinsIff` says what becomes
   of the others. Refused messages may have any length.
   */
  ghost predicate OpFits(T: Topology, st: State, op: Op) {
    T.Valid() && Wired(T, st.net) && Accepted(T, st, op) ==>
      op.cha < T.Channels() && SizeFits(|op.data|, T.widths[op.cha])
  }

  /** So for every operation of a run. */
  ghost predicate RunFits(T: Topology, st: State, ops: seq<Op>)
    decreases |ops|
  {
    ops != [] && T.Valid() && Wired(T, st.net) ==>
      OpFits(T, st, ops[0]) && RunFits(T, Step(T, st, ops[0]), ops[1..])
  }

  ghost predicate Good(T: Topology, st: State) { Inv(T, st.hist, st.net) }

  lemma AcceptedIsAcceptable(T: Topology, st: State, op: Op)
    requires T.Valid() && Good(T, st) && OpFits(T, st, op) && Accepted(T, st, op)
    ensures Acceptable(T, st.hist, st.net, MessageOf(st, op))
  {
    hide Inv, PacketCount, Topology.WiringValid, PlacesOk;
    InvPlaces(T, st.hist, st.net);
    PacketCountExact(|op.data|, T.widths[op.cha]);
  }

  /** One operation keeps the bus consistent. */
  lemma StepKeeps(T: Topology, st: State, op: Op)
    requires T.Valid() && Good(T, st) && OpFits(T, st, op)
    ensures Wired(T, st.net) && Good(T, Step(T, st, op))
  {
    hide Inv, Tick, Accept, TakeFront, Topology.Valid, Acceptable, SendOutcome, CanRecv;
    InvPlaces(T, st.hist, st.net);
    if op.TickOp? {
      TickInv(T, st.hist, st.net);
    } else if Accepted(T, st, op) {
      AcceptedIsAcceptable(T, st, op);
      AcceptInv(T, st.hist, st.net, MessageOf(st, op));
    } else if Handing(T, st, op) {
      TakeInv(T, st.hist, st.net, op.port, op.cha);
    }
  }

  /** The empty bus is consistent. */
  lemma InitialGood(T: Topology)
    requires T.Valid()
    ensures Good(T, Initial(T))
  {
    hide Topology.Valid, PlacesOk, Ahead, Whole;
    var s, h := EmptyNet(T), History([], []);
    EmptyPlaces(T);
    forall f | FlowOk(T, f)
      ensures InOrder(T, [], s, f)
      ensures DoneOk(T, h, [], ReadyIds(RecvAt(s, f.dst, f.cha)), f)
    {
      EmptyAhead(T, f, Origin(T, f));
      EmptyBuffers(T, f.src, f.cha);
      EmptyBuffers(T, f.dst, f.cha);
    }
    assert ArrivedSeq(T, [], s) == [];
    assert FlowsOk(T, [], s) && AllDone(T, h, [], s);
    EmptyRest(T);
  }

  /** Nothing is anywhere at the start: no packet, no reservation, no congestion, all pointers at the first entry. */
  lemma EmptyBus(T: Topology)
    ensures var s := EmptyNet(T);
            && s.tick == 0 && s.nextXmt == 0 && s.nodes.Keys == T.nodes
            && s.ports.Keys == T.port2node.Keys && s.edges.Keys == T.links
            && (forall n :: n in s.nodes ==> s.nodes[n] == Node([], map[], 0, 0, 0, false))
            && (forall q, c :: q in s.ports && 0 <= c < |T.widths| ==> EmptyAt(T, s.ports[q], c))
            && (forall l, c :: l in s.edges && 0 <= c < |T.widths| ==> FreeAt(T, s.edges[l], c))
  {
  }

  predicate EmptyAt(T: Topology, port: Port, c: nat) {
    && |port.sendBuf| == |port.recvBuf| == |port.reserved| == |T.widths| && c < |T.widths|
    && port.sendBuf[c] == [] && port.recvBuf[c] == [] && port.reserved[c] == 0
  }

  predicate FreeAt(T: Topology, e: Edge, c: nat) {
    |e.input| == |e.output| == |T.widths| && c < |T.widths| && e.input[c].None? && e.output[c].None?
  }

  lemma EmptyBuffers(T: Topology, q: PortId, c: nat)
    ensures RecvAt(EmptyNet(T), q, c) == [] && QueueAt(EmptyNet(T), q, c) == []
  {
  }

  lemma EmptyRest(T: Topology)
    ensures var s, h := EmptyNet(T), History([], []);
            ListsOk(T, [], [], s) && BuffersOk(T, [], s) && CountersOk(T, s) && CreditOk(T, h, s)
  {
    forall q, c ensures RecvAt(EmptyNet(T), q, c) == [] {
      EmptyBuffers(T, q, c);
    }
    EmptyCredit(T);
  }

  lemma EmptyCredit(T: Topology)
    ensures CreditOk(T, History([], []), EmptyNet(T))
  {
    var s := EmptyNet(T);
    forall q, c | q in s.ports && 0 <= c < |s.ports[q].reserved| ensures s.ports[q].reserved[c] == 0 {
      assert s.ports[q].reserved == seq(T.Channels(), _ => 0);
    }
  }

  lemma {:induction false} EmptyAhead(T: Topology, f: Flow, n: NodeId)
    ensures Ahead(T, EmptyNet(T), f, n) == []
    decreases T.Dist(n, Target(T, f))
  {
    if n != Target(T, f) && T.Reaches(n, Target(T, f)) {
      Closer(T, n, Target(T, f));
      EmptyAhead(T, f, T.Next(n, Target(T, f)));
    }
  }

  lemma EmptyPlaces(T: Topology)
    requires T.Valid()
    ensures PlacesOk(T, [], EmptyNet(T))
  {
    EmptyWired(T);
    EmptyNodes(T);
    EmptyLinks(T);
  }

  lemma EmptyWired(T: Topology)
    requires T.Valid()
    ensures Wired(T, EmptyNet(T))
  {
  }

  lemma EmptyNodes(T: Topology)
    ensures NodesOk(T, [], EmptyNet(T))
  {
  }

  lemma EmptyLinks(T: Topology)
    ensures EdgesOk(T, [], EmptyNet(T)) && PortsOk(T, [], EmptyNet(T))
  {
    hide RightPlace;
  }

  /** The state after a sequence of operations; every state on the way is consistent. */
  ghost function Run(T: Topology, st: State, ops: seq<Op>): (end: State)
    requires T.Valid() && Good(T, st) && RunFits(T, st, ops)
    ensures Good(T, end)
    decreases |ops|
  {
    if ops == [] then st
    else
      StepKeeps(T, st, ops[0]);
      Run(T, Step(T, st, ops[0]), ops[1..])
  }

  // ----- Order -----

  /** The messages of a flow, oldest first. */
  function SentOf(sent: seq<Message>, f: Flow): seq<nat> {
    if sent == [] then []
    else SentOf(sent[..|sent| - 1], f) + if MessageFlow(sent[|sent| - 1]) == f then [|sent| - 1] else []
  }

  lemma {:induction false} SentOfFacts(sent: seq<Message>, f: Flow)
    ensures Increasing(SentOf(sent, f))
    ensures forall x: nat :: x in SentOf(sent, f) <==> x < |sent| && MessageFlow(sent[x]) == f
  {
    if sent != [] {
      var init := sent[..|sent| - 1];
      SentOfFacts(init, f);
      var ids := SentOf(init, f);
      forall i | 0 <= i < |ids| ensures ids[i] < |init| {
        assert ids[i] in ids;
      }
    }
  }

  /** The last element of an increasing sequence is its greatest, and occurs nowhere else. */
  lemma LastIsGreatest(ids: seq<nat>)
    requires Increasing(ids) && ids != []
    ensures var init, last := ids[..|ids| - 1], ids[|ids| - 1];
            && Increasing(init) && last in ids
            && (forall x :: x in ids ==> x <= last)
            && (forall x :: x in init <==> x in ids && x != last)
  {
    var init, last := ids[..|ids| - 1], ids[|ids| - 1];
    assert ids == init + [last];
    forall x | x in init ensures x < last {
      var i :| 0 <= i < |init| && init[i] == x;
      assert ids[i] < ids[|init|];
    }
  }

  lemma {:induction false} SameElements(a: seq<nat>, b: seq<nat>)
    requires Increasing(a) && Increasing(b)
    requires forall x :: x in a <==> x in b
    ensures a == b
    decreases |a|
  {
    assert a != [] ==> a[0] in a;
    assert b != [] ==> b[0] in b;
    if a != [] {
      LastIsGreatest(a);
      LastIsGreatest(b);
      SameElements(a[..|a| - 1], b[..|b| - 1]);
      assert a == a[..|a| - 1] + [a[|a| - 1]] && b == b[..|b| - 1] + [b[|b| - 1]];
    }
  }

  /** Two increasing sequences, one a downward-closed part of the other: it is a prefix. */
  lemma {:induction false} LowerPartIsPrefix(part: seq<nat>, all: seq<nat>)
    requires Increasing(part) && Increasing(all)
    requires forall x :: x in part ==> x in all
    requires forall x, y :: x in all && y in part && x < y ==> x in part
    ensures part <= all
    decreases |all|
  {
    assert part != [] ==> part[0] in part;
    if all != [] {
      LastIsGreatest(all);
      var last := all[|all| - 1];
      if last in part {
        SameElements(part, all);
      } else {
        LowerPartIsPrefix(part, all[..|all| - 1]);
      }
    }
  }

  /** The messages of one flow are handed out in exactly the order in which they were accepted, without gaps. */
  lemma ReceivedInOrder(T: Topology, st: State, f: Flow)
    requires T.Valid() && Good(T, st) && FlowOk(T, f)
    ensures OfIds(st.hist.sent, st.hist.received, f) <= SentOf(st.hist.sent, f)
  {
    hide PlacesOk, FlowsOk, ListsOk, BuffersOk, CountersOk, CreditOk, ArrivedSeq, RecvAt, ReadyIds, Topology.Valid,
      SentOf, OfIds;
    var h := st.hist;
    var arr, ready := ArrivedSeq(T, h.sent, st.net), ReadyIds(RecvAt(st.net, f.dst, f.cha));
    assert DoneOk(T, h, arr, ready, f);
    SentOfFacts(h.sent, f);
    var part := DoneIds(h, ready, f);
    forall x, y | x in SentOf(h.sent, f) && y in part && x < y ensures x in part {
      assert Complete(T, h.sent, arr, f, y);
      CompleteBefore(T, h.sent, st.net, f, x, y);
    }
    forall x | x in part ensures x in SentOf(h.sent, f) {
      assert Complete(T, h.sent, arr, f, x);
    }
    LowerPartIsPrefix(part, SentOf(h.sent, f));
    assert OfIds(h.sent, h.received, f) <= part;
  }

  lemma CompleteBefore(T: Topology, sent: seq<Message>, s: Net, f: Flow, x: nat, y: nat)
    requires SentOk(T, sent) && x < |sent| && MessageFlow(sent[x]) == f && x < y
    requires Complete(T, sent, ArrivedSeq(T, sent, s), f, y)
    ensures Complete(T, sent, ArrivedSeq(T, sent, s), f, x)
  {
    hide ArrivedOf, Arrivals;
    assert ArrivedOf(T, sent, y, Arrivals(T, sent, s, f)) > 0;
    CompleteInOrder(T, sent, x, y, Arrivals(T, sent, s, f));
  }
}
