/** Round-robin among the ports of a node: how long a port with a packet to send can be passed over by others. */
module NocPortTurns {
  import opened Wrappers
  import opened RouteTable
  import opened NocState
  import opened NocInvariant
  import opened NocSystem
  import opened NocTick
  import opened NocConservation
  import opened NocProgress
  import opened NocRuns
  import opened NocTurns
  import NocFairness

  /** The `j`-th port of node `n` has a packet to send. */
  ghost predicate Wants(T: Topology, s: Net, n: NodeId, j: nat) {
    n in s.nodes && j < |T.Attached(n)| && !NoQueue(QueuesOf(s, T.Attached(n)[j]))
  }

  /** A packet of the `j`-th port has its turn, and is let in. */
  ghost predicate LetsPort(T: Topology, s: Net, n: NodeId, j: nat) { exists c: nat :: LetsFrom(T, s, n, j, c) }

  ghost predicate LetsFrom(T: Topology, s: Net, n: NodeId, j: nat, c: nat) {
    PortTurn(T, s, n, j, c) && LetIn(T, s, n, QueuesOf(s, T.Attached(n)[j])[c][0])
  }

  ghost predicate LetsAnyPort(T: Topology, s: Net, n: NodeId) { exists j: nat :: LetsPort(T, s, n, j) }

  /** How many ports the pointer still has to pass before the `j`-th. */
  function PortGap(T: Topology, s: Net, n: NodeId, j: nat): nat {
    if SdPtr(s, n) < |T.Attached(n)| && j < |T.Attached(n)| then Forward(SdPtr(s, n), j, |T.Attached(n)|) else 0
  }

  lemma Nearer(ptr: nat, i: nat, j: nat, n: nat)
    requires ptr < n && i < n && j < n && Forward(ptr, i, n) <= Forward(ptr, j, n)
    ensures Forward(i, j, n) <= Forward(ptr, j, n)
    ensures i != j ==> (i + 1) % n < n && Forward((i + 1) % n, j, n) < Forward(ptr, j, n)
  {
    if i != j {
      ForwardStep(i, j, n);
    }
  }

  lemma SameTurn(T: Topology, s: Net, n: NodeId, j: nat, c: nat, j': nat, c': nat)
    requires PortTurn(T, s, n, j, c) && PortTurn(T, s, n, j', c')
    ensures j == j' && c == c'
  {
  }

  lemma NoLinkTurn(T: Topology, s: Net, n: NodeId, i: nat, j: nat, c: nat)
    requires i < |T.Rxs(n)| && !NoSlot(NocFairness.LinkOutput(s, T.Rxs(n)[i], n))
    ensures !PortTurn(T, s, n, j, c)
  {
    hide NoSlot;
  }

  lemma PortTurnIsFirst(T: Topology, s: Net, n: NodeId, k: nat, c: nat, j: nat)
    requires PortTurn(T, s, n, k, c) && j < |T.Attached(n)| && !NoQueue(QueuesOf(s, T.Attached(n)[j]))
    ensures k < |T.Attached(n)| && SdPtr(s, n) < |T.Attached(n)|
    ensures Forward(SdPtr(s, n), k, |T.Attached(n)|) <= Forward(SdPtr(s, n), j, |T.Attached(n)|)
    ensures c < |QueuesOf(s, T.Attached(n)[k])| && QueuesOf(s, T.Attached(n)[k])[c] != []
    ensures At(s, Queued(T.Attached(n)[k], c, 0)) == Some(QueuesOf(s, T.Attached(n)[k])[c][0])
  {
    hide NoQueue, NoSlot, Forward;
  }

  /** If any port is served, it is the one whose turn it is. */
  lemma ServedIsFirst(T: Topology, s: Net, n: NodeId, k: nat, c: nat)
    requires PortTurn(T, s, n, k, c) && LetsAnyPort(T, s, n)
    ensures LetsFrom(T, s, n, k, c) && LetsPort(T, s, n, k)
  {
    hide PortTurn, LetIn;
    var j: nat :| LetsPort(T, s, n, j);
    var d: nat :| LetsFrom(T, s, n, j, d);
    LetsFromTurn(T, s, n, j, d);
    SameTurn(T, s, n, k, c, j, d);
  }

  lemma LetsFromTurn(T: Topology, s: Net, n: NodeId, j: nat, c: nat)
    requires LetsFrom(T, s, n, j, c)
    ensures PortTurn(T, s, n, j, c)
  {
  }

  lemma LetsFromIs(T: Topology, s: Net, n: NodeId, j: nat, c: nat, p: Packet)
    requires PortTurn(T, s, n, j, c) && At(s, Queued(T.Attached(n)[j], c, 0)) == Some(p)
    ensures LetsFrom(T, s, n, j, c) <==> LetIn(T, s, n, p)
  {
    hide LetIn, NoSlot, NoQueue, Forward;
  }

  /** A tick that takes nothing from the port brings the pointer no further from it, and closer if it serves another. */
  lemma TickNearer(T: Topology, h: History, s: Net, n: NodeId, j: nat)
    requires T.Valid() && Inv(T, h, s) && Wants(T, s, n, j) && !LetsPort(T, s, n, j)
    ensures PortGap(T, Tick(T, s), n, j) <= PortGap(T, s, n, j)
    ensures LetsAnyPort(T, s, n) ==> PortGap(T, Tick(T, s), n, j) < PortGap(T, s, n, j)
  {
    hide Inv, PlacesOk, Topology.Valid, NoSlot, NoQueue, PortTurn, LinkTurn, Tick, LetIn, LetsPort, LetsAnyPort,
      Forward, ViewOk;
    InvPlaces(T, h, s);
    SeenByNode(T, h.sent, s, n);
    if i: nat :| i < |T.Rxs(n)| && !NoSlot(NocFairness.LinkOutput(s, T.Rxs(n)[i], n)) {
      LinksFirst(T, h, s, n, i);
    } else {
      var k, c := FirstPort(T, s, n, j);
      TurnNearer(T, h, s, n, j, k, c);
    }
  }

  lemma TurnNearer(T: Topology, h: History, s: Net, n: NodeId, j: nat, k: nat, c: nat)
    requires T.Valid() && Inv(T, h, s) && Wants(T, s, n, j) && !LetsPort(T, s, n, j) && PortTurn(T, s, n, k, c)
    ensures PortGap(T, Tick(T, s), n, j) <= PortGap(T, s, n, j)
    ensures LetsAnyPort(T, s, n) ==> PortGap(T, Tick(T, s), n, j) < PortGap(T, s, n, j)
  {
    hide Inv, PlacesOk, Topology.Valid, NoSlot, NoQueue, PortTurn, LinkTurn, Tick, LetIn, LetsPort, LetsAnyPort,
      Forward, LetsFrom, At;
    PortTurnPacket(T, s, n, k, c);
    PortTurnIsFirst(T, s, n, k, c, j);
    var p := At(s, Queued(T.Attached(n)[k], c, 0)).value;
    PortPointers(T, h, s, n, k, c, p);
    LetsFromIs(T, s, n, k, c, p);
    if LetsAnyPort(T, s, n) {
      ServedIsFirst(T, s, n, k, c);
    }
    NotServed(T, s, n, j, c);
    Nearer(SdPtr(s, n), k, j, |T.Attached(n)|);
  }

  lemma NotServed(T: Topology, s: Net, n: NodeId, j: nat, c: nat)
    requires !LetsPort(T, s, n, j)
    ensures !LetsFrom(T, s, n, j, c)
  {
    hide LetsFrom;
  }

  /** While a link has a packet, no port has its turn, and the pointer of the ports stays. */
  lemma LinksFirst(T: Topology, h: History, s: Net, n: NodeId, i: nat)
    requires T.Valid() && Inv(T, h, s) && n in s.nodes && NocFairness.RxPtr(s, n) < |T.Rxs(n)|
    requires i < |T.Rxs(n)| && !NoSlot(NocFairness.LinkOutput(s, T.Rxs(n)[i], n))
    ensures SdPtr(Tick(T, s), n) == SdPtr(s, n) && !LetsAnyPort(T, s, n)
  {
    hide Inv, Topology.Valid, NoSlot, PortTurn, LinkTurn, Tick, LetIn, At, LetsFrom;
    var k, c := FirstLink(T, s, n, i);
    LinkTurnPacket(T, s, n, k, c);
    LinkPointers(T, h, s, n, k, c, At(s, OnOutput((T.Rxs(n)[k], n), c)).value);
    forall j: nat, d: nat ensures !LetsFrom(T, s, n, j, d) {
      NoLinkTurn(T, s, n, i, j, d);
      if LetsFrom(T, s, n, j, d) {
        LetsFromTurn(T, s, n, j, d);
      }
    }
  }

  /** And the port goes on waiting. */
  lemma TickWants(T: Topology, h: History, s: Net, n: NodeId, j: nat)
    requires T.Valid() && Inv(T, h, s) && Wants(T, s, n, j) && !LetsPort(T, s, n, j)
    ensures Wants(T, Tick(T, s), n, j)
  {
    hide Inv, PlacesOk, Topology.Valid, PortTurn, LinkTurn, Tick, LetIn, LetsPort, HasTurn;
    var q := T.Attached(n)[j];
    InvPlaces(T, h, s);
    OwnPort(T, h.sent, s, n, j);
    TickKeys(T, s);
    RecvWidth(T, h.sent, s, q);
    var d: nat :| d < |s.ports[q].sendBuf| && s.ports[q].sendBuf[d] != [];
    if Dequeues(T, s, q, d) {
      FirstIsLet(T, s, n, j, d);
    }
    QueueTurn(T, h, s, q, d);
    assert QueuesOf(Tick(T, s), q)[d] != [];
  }

  lemma OwnPort(T: Topology, sent: seq<Message>, s: Net, n: NodeId, j: nat)
    requires T.Valid() && PlacesOk(T, sent, s) && n in s.nodes && j < |T.Attached(n)|
    ensures T.Attached(n)[j] in s.ports && T.NodeOf(T.Attached(n)[j]) == n
    ensures forall k: nat :: k < |T.Attached(n)| && T.Attached(n)[k] == T.Attached(n)[j] ==> k == j
  {
    hide NodesOk, EdgesOk, PortsOk, Topology.ConfigValid, AllReachable;
    assert T.Attached(n)[j] in T.Attached(n);
  }

  lemma FirstIsLet(T: Topology, s: Net, n: NodeId, j: nat, d: nat)
    requires j < |T.Attached(n)| && T.NodeOf(T.Attached(n)[j]) == n && Dequeues(T, s, T.Attached(n)[j], d)
    requires forall k: nat :: k < |T.Attached(n)| && T.Attached(n)[k] == T.Attached(n)[j] ==> k == j
    ensures LetsPort(T, s, n, j)
  {
    hide NoSlot, NoQueue, LinkTurn, LetIn;
    var q := T.Attached(n)[j];
    var k: nat :| k < |T.Attached(n)| && T.Attached(n)[k] == q && PortTurn(T, s, n, k, d);
    assert QueueAt(s, q, d) == QueuesOf(s, q)[d];
    assert LetsFrom(T, s, n, k, d);
  }

  // ----- Over a run -----

  /** How often the node lets in a packet from one of its ports during the run. */
  ghost function PortsServed(T: Topology, st: State, ops: seq<Op>, n: NodeId): nat
    requires T.Valid() && Good(T, st) && RunFits(T, st, ops)
    decreases |ops|
  {
    if ops == [] then 0
    else
      StepKeeps(T, st, ops[0]);
      (if ops[0].TickOp? && LetsAnyPort(T, st.net, n) then 1 else 0) + PortsServed(T, Step(T, st, ops[0]), ops[1..], n)
  }

  /** Some tick of the run lets in a packet from the `j`-th port. */
  ghost predicate PortServed(T: Topology, st: State, ops: seq<Op>, n: NodeId, j: nat)
    requires T.Valid() && Good(T, st) && RunFits(T, st, ops)
    decreases |ops|
  {
    ops != [] && (
      StepKeeps(T, st, ops[0]);
      || (ops[0].TickOp? && LetsPort(T, st.net, n, j))
      || PortServed(T, Step(T, st, ops[0]), ops[1..], n, j))
  }

  /** Sending and receiving leave the pointer alone and take nothing from a send queue. */
  lemma OtherOps(T: Topology, st: State, op: Op, n: NodeId, j: nat)
    requires T.Valid() && Good(T, st) && OpFits(T, st, op) && Wired(T, st.net) && !op.TickOp?
    requires Wants(T, st.net, n, j)
    ensures Wants(T, Step(T, st, op).net, n, j) && PortGap(T, Step(T, st, op).net, n, j) == PortGap(T, st.net, n, j)
  {
    hide Inv, Topology.Valid, Wired, SendOutcome, CanRecv, Packetize;
    var q := T.Attached(n)[j];
    NocFairness.OnlyPorts(T, st, op);
    var d: nat :| d < |QueuesOf(st.net, q)| && QueuesOf(st.net, q)[d] != [];
    QueuesGrow(T, st, op, q, d);
  }

  lemma QueuesGrow(T: Topology, st: State, op: Op, q: PortId, d: nat)
    requires T.Valid() && Good(T, st) && OpFits(T, st, op) && Wired(T, st.net) && !op.TickOp?
    requires d < |QueuesOf(st.net, q)| && QueuesOf(st.net, q)[d] != []
    ensures d < |QueuesOf(Step(T, st, op).net, q)| && QueuesOf(Step(T, st, op).net, q)[d] != []
  {
    hide Inv, Wired, SendOutcome, CanRecv, Packetize, RecvAt;
    if Accepted(T, st, op) {
      AcceptedIsAcceptable(T, st, op);
    }
  }

  lemma {:induction false} PortPassedOver(T: Topology, st: State, ops: seq<Op>, n: NodeId, j: nat)
    requires T.Valid() && Good(T, st) && RunFits(T, st, ops) && Wants(T, st.net, n, j)
    requires !PortServed(T, st, ops, n, j)
    ensures PortsServed(T, st, ops, n) <= PortGap(T, st.net, n, j)
    decreases |ops|
  {
    hide Inv, Topology.Valid, Step, Tick, Wants, LetsPort, LetsAnyPort, PortGap;
    if ops != [] {
      StepKeeps(T, st, ops[0]);
      if ops[0].TickOp? {
        TickNearer(T, st.hist, st.net, n, j);
        TickWants(T, st.hist, st.net, n, j);
        NocFairness.TickStep(T, st);
      } else {
        OtherOps(T, st, ops[0], n, j);
      }
      PortPassedOver(T, Step(T, st, ops[0]), ops[1..], n, j);
    }
  }

  /**
   The round-robin bound among ports. Whatever else happens in a run, a port of node `n` with a packet to send is served
   before the node has let in as many packets from its ports as it has ports.
   */
  lemma PortsInTurn(T: Topology, st: State, ops: seq<Op>, n: NodeId, j: nat)
    requires T.Valid() && Good(T, st) && RunFits(T, st, ops) && Wants(T, st.net, n, j)
    requires PortsServed(T, st, ops, n) >= |T.Attached(n)|
    ensures PortServed(T, st, ops, n, j)
  {
    hide Inv, Topology.Valid, Wants, PortsServed, PortServed;
    if !PortServed(T, st, ops, n, j) {
      PortPassedOver(T, st, ops, n, j);
      PortInRound(T, st.net, n, j);
      assert false;
    }
  }

  lemma PortInRound(T: Topology, s: Net, n: NodeId, j: nat)
    requires Wants(T, s, n, j)
    ensures PortGap(T, s, n, j) < |T.Attached(n)|
  {
  }
}