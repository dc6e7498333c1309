/**
 What one tick does with each packet, told by the places before and after it: whose turn it is at a node, whether that
 packet is let in, where it goes, and what becomes of the packets that are already inside.
 */
module NocTurns {
  import opened Wrappers
  import opened RouteTable
  import opened NocState
  import opened NocInvariant
  import opened NocNodeStep
  import opened NocFlow
  import opened NocSystem
  import opened NocTick
  import opened NocConservation
  import opened NocProgress
  import opened NocTiming
  import NocFairness

  // ----- Whose turn it is -----

  /** Channel `c` is the lowest one with a packet. */
  predicate LowestSlot(slots: Slots, c: nat) {
    c < |slots| && slots[c].Some? && forall d :: 0 <= d < c ==> slots[d].None?
  }

  predicate LowestQueue(queues: seq<seq<Packet>>, c: nat) {
    c < |queues| && queues[c] != [] && forall d :: 0 <= d < c ==> queues[d] == []
  }

  predicate NoSlot(slots: Slots) { forall d :: 0 <= d < |slots| ==> slots[d].None? }

  predicate NoQueue(queues: seq<seq<Packet>>) { forall d :: 0 <= d < |queues| ==> queues[d] == [] }

  function QueuesOf(s: Net, q: PortId): seq<seq<Packet>> { if q in s.ports then s.ports[q].sendBuf else [] }

  function SdPtr(s: Net, n: NodeId): nat { if n in s.nodes then s.nodes[n].sdPtr else 0 }

  /** Seen from the pointer, the `j`-th incoming link is the first with a packet; its lowest one is on channel `c`. */
  ghost predicate LinkTurn(T: Topology, s: Net, n: NodeId, j: nat, c: nat) {
    var froms, ptr := T.Rxs(n), NocFairness.RxPtr(s, n);
    && n in s.nodes && j < |froms| && ptr < |froms| && LowestSlot(NocFairness.LinkOutput(s, froms[j], n), c)
    && forall i: nat :: i < |froms| && Forward(ptr, i, |froms|) < Forward(ptr, j, |froms|) ==>
                          NoSlot(NocFairness.LinkOutput(s, froms[i], n))
  }

  /** No link has a packet, and the `j`-th port is the first with one. */
  ghost predicate PortTurn(T: Topology, s: Net, n: NodeId, j: nat, c: nat) {
    var ids, ptr := T.Attached(n), SdPtr(s, n);
    && n in s.nodes && j < |ids| && ptr < |ids| && LowestQueue(QueuesOf(s, ids[j]), c)
    && (forall i: nat :: i < |T.Rxs(n)| ==> NoSlot(NocFairness.LinkOutput(s, T.Rxs(n)[i], n)))
    && forall i: nat :: i < |ids| && Forward(ptr, i, |ids|) < Forward(ptr, j, |ids|) ==> NoQueue(QueuesOf(s, ids[i]))
  }

  /** It is the turn of the packet at `pl` at node `n`. */
  ghost predicate HasTurn(T: Topology, s: Net, n: NodeId, pl: Place) {
    match pl
    case OnOutput(l, c) => l.1 == n && exists j: nat :: j < |T.Rxs(n)| && T.Rxs(n)[j] == l.0 && LinkTurn(T, s, n, j, c)
    case Queued(q, c, i) => i == 0 && exists j: nat :: j < |T.Attached(n)| && T.Attached(n)[j] == q
                                                       && PortTurn(T, s, n, j, c)
    case _ => false
  }

  /** A packet for the node itself always gets in, any other one as long as the node may buffer it. */
  predicate LetIn(T: Topology, s: Net, n: NodeId, p: Packet) {
    p.tgt == n || !T.config.congestion.enabled || |PipeAt(s, n)| < T.config.congestion.limit
  }

  // ----- The scans find whose turn it is -----

  lemma {:induction false} FullAt(slots: Slots, b: nat, c: nat)
    requires LowestSlot(slots, c) && b <= c
    ensures FirstFull(slots, b) == Some(c)
    decreases c - b
  {
    if b < c {
      FullAt(slots, b + 1, c);
    }
  }

  lemma {:induction false} NoneFull(slots: Slots, b: nat)
    requires NoSlot(slots)
    ensures FirstFull(slots, b) == None
    decreases |slots| - b
  {
    if b < |slots| {
      NoneFull(slots, b + 1);
    }
  }

  lemma {:induction false} QueuedAt(queues: seq<seq<Packet>>, b: nat, c: nat)
    requires LowestQueue(queues, c) && b <= c
    ensures FirstQueued(queues, b) == Some(c)
    decreases c - b
  {
    if b < c {
      QueuedAt(queues, b + 1, c);
    }
  }

  lemma {:induction false} NoneQueued(queues: seq<seq<Packet>>, b: nat)
    requires NoQueue(queues)
    ensures FirstQueued(queues, b) == None
    decreases |queues| - b
  {
    if b < |queues| {
      NoneQueued(queues, b + 1);
    }
  }

  /** Moving the pointer one place on keeps the order in which it meets the others. */
  lemma ForwardOrder(ptr: nat, i: nat, j: nat, n: nat)
    requires ptr < n && i < n && j < n && ptr != j
    ensures Inc(ptr, n) < n && Forward(Inc(ptr, n), j, n) == Forward(ptr, j, n) - 1
    ensures Forward(Inc(ptr, n), i, n) < Forward(Inc(ptr, n), j, n) ==> Forward(ptr, i, n) < Forward(ptr, j, n)
    ensures Forward(ptr, ptr, n) == 0 < Forward(ptr, j, n)
  {
    ForwardStep(ptr, j, n);
    if i != ptr {
      ForwardStep(ptr, i, n);
    }
  }

  lemma {:induction false} ScanLinksIs(froms: seq<NodeId>, rx: map<NodeId, Slots>, ptr: nat, tries: nat, j: nat, c: nat)
    requires LinksThere(froms, rx) && ptr < |froms| && j < |froms| && LowestSlot(rx[froms[j]], c)
    requires forall i: nat :: i < |froms| && Forward(ptr, i, |froms|) < Forward(ptr, j, |froms|) ==>
                                NoSlot(rx[froms[i]])
    requires Forward(ptr, j, |froms|) < tries
    ensures ScanLinks(froms, rx, ptr, tries) == (j, FromLink(froms[j], c))
    decreases tries
  {
    hide LowestSlot, NoSlot, Forward;
    if ptr == j {
      FullAt(rx[froms[j]], 0, c);
    } else {
      ForwardOrder(ptr, ptr, j, |froms|);
      NoneFull(rx[froms[ptr]], 0);
      forall i: nat | i < |froms| && Forward(Inc(ptr, |froms|), i, |froms|) < Forward(Inc(ptr, |froms|), j, |froms|)
        ensures NoSlot(rx[froms[i]])
      {
        ForwardOrder(ptr, i, j, |froms|);
      }
      ScanLinksIs(froms, rx, Inc(ptr, |froms|), tries - 1, j, c);
    }
  }

  lemma {:induction false} ScanPortsIs(ids: seq<PortId>, ports: map<PortId, Port>, ptr: nat, tries: nat, j: nat, c: nat)
    requires PortsThere(ids, ports) && ptr < |ids| && j < |ids| && LowestQueue(ports[ids[j]].sendBuf, c)
    requires forall i: nat :: i < |ids| && Forward(ptr, i, |ids|) < Forward(ptr, j, |ids|) ==>
                                NoQueue(ports[ids[i]].sendBuf)
    requires Forward(ptr, j, |ids|) < tries
    ensures ScanPorts(ids, ports, ptr, tries) == (j, FromPort(ids[j], c))
    decreases tries
  {
    hide LowestQueue, NoQueue, Forward;
    if ptr == j {
      QueuedAt(ports[ids[j]].sendBuf, 0, c);
    } else {
      ForwardOrder(ptr, ptr, j, |ids|);
      NoneQueued(ports[ids[ptr]].sendBuf, 0);
      forall i: nat | i < |ids| && Forward(Inc(ptr, |ids|), i, |ids|) < Forward(Inc(ptr, |ids|), j, |ids|)
        ensures NoQueue(ports[ids[i]].sendBuf)
      {
        ForwardOrder(ptr, i, j, |ids|);
      }
      ScanPortsIs(ids, ports, Inc(ptr, |ids|), tries - 1, j, c);
    }
  }

  /** `tries` places on from `ptr`, at most once round. */
  function Around(ptr: nat, tries: nat, n: nat): int { if ptr + tries < n then ptr + tries else ptr + tries - n }

  /** A scan that finds nothing comes back to where it started. */
  lemma {:induction false} ScanNoLinks(froms: seq<NodeId>, rx: map<NodeId, Slots>, ptr: nat, tries: nat)
    requires LinksThere(froms, rx) && PointerOk(ptr, |froms|) && tries <= |froms|
    requires forall i: nat :: i < |froms| ==> NoSlot(rx[froms[i]])
    ensures |froms| > 0 ==> ScanLinks(froms, rx, ptr, tries) == (Around(ptr, tries, |froms|), NoChoice)
    ensures |froms| == 0 ==> ScanLinks(froms, rx, ptr, tries) == (ptr, NoChoice)
    decreases tries
  {
    hide NoSlot;
    if tries > 0 {
      NoneFull(rx[froms[ptr]], 0);
      IncIs(ptr, |froms|);
      ScanNoLinks(froms, rx, Inc(ptr, |froms|), tries - 1);
    }
  }

  lemma {:induction false} ScanNoPorts(ids: seq<PortId>, ports: map<PortId, Port>, ptr: nat, tries: nat)
    requires PortsThere(ids, ports) && PointerOk(ptr, |ids|) && tries <= |ids|
    requires forall i: nat :: i < |ids| ==> NoQueue(ports[ids[i]].sendBuf)
    ensures |ids| > 0 ==> ScanPorts(ids, ports, ptr, tries) == (Around(ptr, tries, |ids|), NoChoice)
    ensures |ids| == 0 ==> ScanPorts(ids, ports, ptr, tries) == (ptr, NoChoice)
    decreases tries
  {
    hide NoQueue;
    if tries > 0 {
      NoneQueued(ports[ids[ptr]].sendBuf, 0);
      IncIs(ptr, |ids|);
      ScanNoPorts(ids, ports, Inc(ptr, |ids|), tries - 1);
    }
  }

  lemma IncIs(ptr: nat, n: nat)
    requires ptr < n
    ensures Inc(ptr, n) == (if ptr + 1 < n then ptr + 1 else 0) < n
  {
    if ptr + 1 < n {
      ModSmall(ptr + 1, n);
    } else {
      ModSelf(n);
    }
  }

  // ----- What a node sees -----

  /** The outputs of incoming links and the queues of attached ports, as the node sees them. */
  lemma SeenByNode(T: Topology, sent: seq<Message>, s: Net, n: NodeId)
    requires T.Valid() && PlacesOk(T, sent, s) && n in s.nodes
    ensures var v := GetView(T, s, n);
            && n in T.nodes && ViewOk(T, sent, n, v) && LinksThere(T.Rxs(n), v.rx) && PortsThere(T.Attached(n), v.ports)
            && PointerOk(v.node.rxPtr, |T.Rxs(n)|) && PointerOk(v.node.sdPtr, |T.Attached(n)|)
            && v.node == s.nodes[n]
            && (forall i: nat :: i < |T.Rxs(n)| ==> v.rx[T.Rxs(n)[i]] == NocFairness.LinkOutput(s, T.Rxs(n)[i], n))
            && (forall i: nat :: i < |T.Attached(n)| ==>
                                   v.ports[T.Attached(n)[i]].sendBuf == QueuesOf(s, T.Attached(n)[i]))
  {
    hide GetView, Topology.Valid, PlacesOk, ViewOk;
    WiredNodes(T, sent, s);
    ViewIsOk(T, sent, s, n);
    ViewBack(T, s, n);
    NeighboursThere(T, sent, n, GetView(T, s, n));
  }

  /** The choice of arbitration is the packet whose turn it is. */
  lemma LinkTurnIs(T: Topology, sent: seq<Message>, s: Net, n: NodeId, j: nat, c: nat)
    requires T.Valid() && PlacesOk(T, sent, s) && LinkTurn(T, s, n, j, c)
    ensures Arbitrate(T.Rxs(n), T.Attached(n), GetView(T, s, n)) ==
            Arbitration(j, s.nodes[n].sdPtr, FromLink(T.Rxs(n)[j], c))
    ensures Chosen(GetView(T, s, n), FromLink(T.Rxs(n)[j], c)) == At(s, OnOutput((T.Rxs(n)[j], n), c))
  {
    hide GetView, Topology.Valid, PlacesOk, ViewOk, NoSlot, ScanLinks, ScanPorts, Forward;
    var v, froms := GetView(T, s, n), T.Rxs(n);
    SeenByNode(T, sent, s, n);
    ForwardBound(v.node.rxPtr, j, |froms|);
    ScanLinksIs(froms, v.rx, v.node.rxPtr, |froms|, j, c);
  }

  lemma PortTurnIs(T: Topology, sent: seq<Message>, s: Net, n: NodeId, j: nat, c: nat)
    requires T.Valid() && PlacesOk(T, sent, s) && PortTurn(T, s, n, j, c)
    ensures Arbitrate(T.Rxs(n), T.Attached(n), GetView(T, s, n)) ==
            Arbitration(s.nodes[n].rxPtr, j, FromPort(T.Attached(n)[j], c))
    ensures Chosen(GetView(T, s, n), FromPort(T.Attached(n)[j], c)) == At(s, Queued(T.Attached(n)[j], c, 0))
  {
    hide GetView, Topology.Valid, PlacesOk, ViewOk, NoSlot, NoQueue, ScanLinks, ScanPorts, Forward;
    var v, ids := GetView(T, s, n), T.Attached(n);
    SeenByNode(T, sent, s, n);
    ForwardBound(v.node.sdPtr, j, |ids|);
    ScanNoLinks(T.Rxs(n), v.rx, v.node.rxPtr, |T.Rxs(n)|);
    ScanPortsIs(ids, v.ports, v.node.sdPtr, |ids|, j, c);
  }

  // ----- There is a turn, and only one -----

  lemma {:induction false} FirstLink(T: Topology, s: Net, n: NodeId, j: nat) returns (i: nat, c: nat)
    requires n in s.nodes && j < |T.Rxs(n)| && NocFairness.RxPtr(s, n) < |T.Rxs(n)|
    requires !NoSlot(NocFairness.LinkOutput(s, T.Rxs(n)[j], n))
    ensures i < |T.Rxs(n)| && LinkTurn(T, s, n, i, c)
    decreases Forward(NocFairness.RxPtr(s, n), j, |T.Rxs(n)|)
  {
    hide NoSlot, LowestSlot, Forward;
    var froms, ptr := T.Rxs(n), NocFairness.RxPtr(s, n);
    if k: nat :| k < |froms| && Forward(ptr, k, |froms|) < Forward(ptr, j, |froms|)
                 && !NoSlot(NocFairness.LinkOutput(s, froms[k], n))
    {
      i, c := FirstLink(T, s, n, k);
    } else {
      i := j;
      c := LowestOf(NocFairness.LinkOutput(s, froms[j], n));
    }
  }

  lemma LowestOf(slots: Slots) returns (c: nat)
    requires !NoSlot(slots)
    ensures LowestSlot(slots, c)
  {
    var d: nat :| d < |slots| && slots[d].Some?;
    FirstFullFinds(slots, 0, d);
    LowestFull(slots, 0);
    c := FirstFull(slots, 0).value;
  }

  lemma {:induction false} FirstPort(T: Topology, s: Net, n: NodeId, j: nat) returns (i: nat, c: nat)
    requires n in s.nodes && j < |T.Attached(n)| && SdPtr(s, n) < |T.Attached(n)|
    requires !NoQueue(QueuesOf(s, T.Attached(n)[j]))
    requires forall i: nat :: i < |T.Rxs(n)| ==> NoSlot(NocFairness.LinkOutput(s, T.Rxs(n)[i], n))
    ensures i < |T.Attached(n)| && PortTurn(T, s, n, i, c)
    decreases Forward(SdPtr(s, n), j, |T.Attached(n)|)
  {
    hide NoQueue, LowestQueue, Forward, NoSlot;
    var ids, ptr := T.Attached(n), SdPtr(s, n);
    if k: nat :| k < |ids| && Forward(ptr, k, |ids|) < Forward(ptr, j, |ids|) && !NoQueue(QueuesOf(s, ids[k])) {
      i, c := FirstPort(T, s, n, k);
    } else {
      i := j;
      c := LowestQueueOf(QueuesOf(s, ids[j]));
    }
  }

  lemma LowestQueueOf(queues: seq<seq<Packet>>) returns (c: nat)
    requires !NoQueue(queues)
    ensures LowestQueue(queues, c)
  {
    var d: nat :| d < |queues| && queues[d] != [];
    FirstQueuedFinds(queues, 0, d);
    NocFairness.LowestQueued(queues, 0);
    c := FirstQueued(queues, 0).value;
  }

  /** Whenever a packet waits at a node, it is some packet's turn. */
  lemma SomeTurn(T: Topology, sent: seq<Message>, s: Net, n: NodeId, pl: Place) returns (next: Place)
    requires T.Valid() && PlacesOk(T, sent, s) && Offered(T, s, n, pl) && At(s, pl).Some?
    ensures HasTurn(T, s, n, next) && At(s, next).Some?
  {
    hide Topology.Valid, PlacesOk, ViewOk, GetView, NoSlot, NoQueue, LinkTurn, PortTurn;
    OfferedNode(T, sent, s, n, pl);
    SeenByNode(T, sent, s, n);
    if pl.OnOutput? {
      var i := OfferingLink(T, sent, s, n, pl);
    }
    if i: nat :| i < |T.Rxs(n)| && !NoSlot(NocFairness.LinkOutput(s, T.Rxs(n)[i], n)) {
      var j, c := FirstLink(T, s, n, i);
      next := OnOutput((T.Rxs(n)[j], n), c);
      LinkTurnPacket(T, s, n, j, c);
    } else {
      var i := OfferingPort(T, sent, s, n, pl);
      var j, c := FirstPort(T, s, n, i);
      next := Queued(T.Attached(n)[j], c, 0);
      PortTurnPacket(T, s, n, j, c);
    }
  }

  lemma LinkTurnPacket(T: Topology, s: Net, n: NodeId, j: nat, c: nat)
    requires LinkTurn(T, s, n, j, c)
    ensures n in s.nodes && j < |T.Rxs(n)| && At(s, OnOutput((T.Rxs(n)[j], n), c)).Some?
    ensures HasTurn(T, s, n, OnOutput((T.Rxs(n)[j], n), c))
  {
    hide NoSlot, Forward;
  }

  lemma PortTurnPacket(T: Topology, s: Net, n: NodeId, j: nat, c: nat)
    requires PortTurn(T, s, n, j, c)
    ensures n in s.nodes && j < |T.Attached(n)| && At(s, Queued(T.Attached(n)[j], c, 0)).Some?
    ensures HasTurn(T, s, n, Queued(T.Attached(n)[j], c, 0))
  {
    hide NoSlot, NoQueue, Forward;
  }

  lemma OfferedNode(T: Topology, sent: seq<Message>, s: Net, n: NodeId, pl: Place)
    requires PlacesOk(T, sent, s) && Offered(T, s, n, pl) && At(s, pl).Some?
    ensures n in s.nodes
    ensures pl.OnOutput? ==> pl.l in s.edges
    ensures pl.Queued? ==> pl.q in s.ports
  {
    hide NodesOk, EdgesOk, PortsOk;
    match pl
    case Queued(q, c, i) => assert s.ports[q] == s.ports[q];
    case OnOutput(l, c) => assert s.edges[l] == s.edges[l];
  }

  lemma OfferingPort(T: Topology, sent: seq<Message>, s: Net, n: NodeId, pl: Place) returns (i: nat)
    requires T.Valid() && PlacesOk(T, sent, s) && Offered(T, s, n, pl) && At(s, pl).Some? && pl.Queued?
    ensures i < |T.Attached(n)| && !NoQueue(QueuesOf(s, T.Attached(n)[i])) && T.Attached(n)[i] == pl.q
  {
    hide NodesOk, EdgesOk, PortsOk, Topology.ConfigValid, AllReachable;
    OfferedNode(T, sent, s, n, pl);
    assert pl.q in T.Attached(n);
    i :| i < |T.Attached(n)| && T.Attached(n)[i] == pl.q;
    assert QueuesOf(s, pl.q)[pl.c] != [];
  }

  lemma OfferingLink(T: Topology, sent: seq<Message>, s: Net, n: NodeId, pl: Place) returns (i: nat)
    requires T.Valid() && PlacesOk(T, sent, s) && Offered(T, s, n, pl) && At(s, pl).Some? && pl.OnOutput?
    ensures i < |T.Rxs(n)| && !NoSlot(NocFairness.LinkOutput(s, T.Rxs(n)[i], n)) && T.Rxs(n)[i] == pl.l.0
  {
    hide NodesOk, EdgesOk, PortsOk, Topology.ConfigValid, AllReachable;
    OfferedNode(T, sent, s, n, pl);
    assert pl.l in T.links && pl.l.0 in T.Rxs(n);
    i :| i < |T.Rxs(n)| && T.Rxs(n)[i] == pl.l.0;
    assert NocFairness.LinkOutput(s, pl.l.0, n)[pl.c].Some?;
  }

  /** The candidate that stands for a place. */
  function ChoiceOf(pl: Place): Choice {
    match pl
    case OnOutput(l, c) => FromLink(l.0, c)
    case Queued(q, c, i) => FromPort(q, c)
    case _ => NoChoice
  }

  /** The node takes the packet whose turn it is, if it is let in, and nothing else. */
  lemma TurnIsTaken(T: Topology, h: History, s: Net, n: NodeId, pl: Place, p: Packet)
    requires T.Valid() && Inv(T, h, s) && HasTurn(T, s, n, pl) && At(s, pl) == Some(p)
    ensures n in s.nodes && ChoiceOf(pl) != NoChoice
    ensures Taken(T, n, GetView(T, s, n)) == if LetIn(T, s, n, p) then ChoiceOf(pl) else NoChoice
    ensures LetIn(T, s, n, p) ==> EnteringAt(T, s, n) == Some(p)
    ensures var a := Arbitrate(T.Rxs(n), T.Attached(n), GetView(T, s, n));
            match pl
            case OnOutput(l, c) => a.rxPtr < |T.Rxs(n)| && T.Rxs(n)[a.rxPtr] == l.0 && a.sdPtr == s.nodes[n].sdPtr
            case Queued(q, c, i) => a.sdPtr < |T.Attached(n)| && T.Attached(n)[a.sdPtr] == q
                                    && a.rxPtr == s.nodes[n].rxPtr
            case _ => false
  {
    hide Inv, GetView, Topology.Valid, Arbitrate, PlacesOk, LinkTurn, PortTurn, At;
    InvPlaces(T, h, s);
    match pl {
      case OnOutput(l, c) =>
        var j: nat :| j < |T.Rxs(n)| && T.Rxs(n)[j] == l.0 && LinkTurn(T, s, n, j, c);
        LinkTurnPacket(T, s, n, j, c);
        LinkTurnIs(T, h.sent, s, n, j, c);
      case Queued(q, c, _) =>
        var j: nat :| j < |T.Attached(n)| && T.Attached(n)[j] == q && PortTurn(T, s, n, j, c);
        PortTurnPacket(T, s, n, j, c);
        PortTurnIs(T, h.sent, s, n, j, c);
      case _ =>
    }
    ViewNode(T, s, n);
    CounterIs(T, h, s, n);
  }

  /** Only one packet at a time has its turn at a node. */
  lemma OneTurn(T: Topology, h: History, s: Net, n: NodeId, pl: Place, pl': Place)
    requires T.Valid() && Inv(T, h, s) && HasTurn(T, s, n, pl) && HasTurn(T, s, n, pl')
    requires At(s, pl).Some? && At(s, pl').Some?
    ensures pl == pl'
  {
    hide Inv, GetView, Topology.Valid, Arbitrate, PlacesOk, LinkTurn, PortTurn, At;
    InvPlaces(T, h, s);
    TurnChoice(T, h.sent, s, n, pl);
    TurnChoice(T, h.sent, s, n, pl');
  }

  lemma TurnChoice(T: Topology, sent: seq<Message>, s: Net, n: NodeId, pl: Place)
    requires T.Valid() && PlacesOk(T, sent, s) && HasTurn(T, s, n, pl)
    ensures n in s.nodes
    ensures Arbitrate(T.Rxs(n), T.Attached(n), GetView(T, s, n)).choice == ChoiceOf(pl)
    ensures pl.OnOutput? ==> pl.l.1 == n
    ensures pl.Queued? ==> pl.i == 0
    ensures pl.OnOutput? || pl.Queued?
  {
    hide GetView, Topology.Valid, Arbitrate, PlacesOk, LinkTurn, PortTurn;
    match pl {
      case OnOutput(l, c) =>
        var j: nat :| j < |T.Rxs(n)| && T.Rxs(n)[j] == l.0 && LinkTurn(T, s, n, j, c);
        LinkTurnPacket(T, s, n, j, c);
        LinkTurnIs(T, sent, s, n, j, c);
      case Queued(q, c, _) =>
        var j: nat :| j < |T.Attached(n)| && T.Attached(n)[j] == q && PortTurn(T, s, n, j, c);
        PortTurnPacket(T, s, n, j, c);
        PortTurnIs(T, sent, s, n, j, c);
      case _ =>
    }
  }

  // ----- The pointers -----

  /** A link whose packet was let in goes to the back of the line; if the packet was refused, its turn is next again. */
  lemma LinkPointers(T: Topology, h: History, s: Net, n: NodeId, j: nat, c: nat, p: Packet)
    requires T.Valid() && Inv(T, h, s) && LinkTurn(T, s, n, j, c) && At(s, OnOutput((T.Rxs(n)[j], n), c)) == Some(p)
    ensures NocFairness.RxPtr(Tick(T, s), n) == if LetIn(T, s, n, p) then (j + 1) % |T.Rxs(n)| else j
    ensures SdPtr(Tick(T, s), n) == SdPtr(s, n)
  {
    hide Inv, GetView, Topology.Valid, Arbitrate, LinkTurn, PortTurn, At, Taken, Handed, PipeIn, RxOut, Release,
      BufferedAfter, Tick, LetIn;
    InvPlaces(T, h, s);
    LinkTurnPacket(T, s, n, j, c);
    LinkTurnIs(T, h.sent, s, n, j, c);
    TurnIsTaken(T, h, s, n, OnOutput((T.Rxs(n)[j], n), c), p);
    TickNodeIs(T, s, n);
  }

  lemma PortPointers(T: Topology, h: History, s: Net, n: NodeId, j: nat, c: nat, p: Packet)
    requires T.Valid() && Inv(T, h, s) && PortTurn(T, s, n, j, c) && At(s, Queued(T.Attached(n)[j], c, 0)) == Some(p)
    ensures SdPtr(Tick(T, s), n) == if LetIn(T, s, n, p) then (j + 1) % |T.Attached(n)| else j
    ensures NocFairness.RxPtr(Tick(T, s), n) == NocFairness.RxPtr(s, n)
  {
    hide Inv, GetView, Topology.Valid, Arbitrate, LinkTurn, PortTurn, At, Taken, Handed, PipeIn, RxOut, Release,
      BufferedAfter, Tick, LetIn;
    InvPlaces(T, h, s);
    PortTurnPacket(T, s, n, j, c);
    PortTurnIs(T, h.sent, s, n, j, c);
    TurnIsTaken(T, h, s, n, Queued(T.Attached(n)[j], c, 0), p);
    TickNodeIs(T, s, n);
  }

  /** While nothing waits at a node, both pointers stay. */
  lemma IdlePointers(T: Topology, h: History, s: Net, n: NodeId)
    requires T.Valid() && Inv(T, h, s) && n in s.nodes
    requires forall i: nat :: i < |T.Rxs(n)| ==> NoSlot(NocFairness.LinkOutput(s, T.Rxs(n)[i], n))
    requires forall i: nat :: i < |T.Attached(n)| ==> NoQueue(QueuesOf(s, T.Attached(n)[i]))
    ensures NocFairness.RxPtr(Tick(T, s), n) == NocFairness.RxPtr(s, n) && SdPtr(Tick(T, s), n) == SdPtr(s, n)
  {
    hide Inv, PlacesOk, GetView, ViewOk, Topology.Valid, NoSlot, NoQueue, ScanLinks, ScanPorts, Handed, PipeIn, RxOut,
      Release, BufferedAfter, Tick;
    InvPlaces(T, h, s);
    SeenByNode(T, h.sent, s, n);
    var v := GetView(T, s, n);
    ScanNoLinks(T.Rxs(n), v.rx, v.node.rxPtr, |T.Rxs(n)|);
    ScanNoPorts(T.Attached(n), v.ports, v.node.sdPtr, |T.Attached(n)|);
    TickNodeIs(T, s, n);
  }

  // ----- The packets inside a node -----

  /** A packet that has finished its wait and is to leave over the link to `m` on channel `c`. */
  predicate Heading(T: Topology, n: NodeId, e: Piped, m: NodeId, c: nat) {
    e.remain == 0 && T.Next(n, e.pack.tgt) == m && e.pack.cha == c
  }

  /** Its way is free, and nobody before it in the pipeline goes the same way. */
  ghost predicate Departs(T: Topology, n: NodeId, pipe: seq<Piped>, tx: map<NodeId, Slots>, i: nat)
    requires i < |pipe|
  {
    var m, c := T.Next(n, pipe[i].pack.tgt), pipe[i].pack.cha;
    Heading(T, n, pipe[i], m, c) && SlotFree(tx, m, c) && forall k :: 0 <= k < i ==> !Heading(T, n, pipe[k], m, c)
  }

  lemma DepartsTail(T: Topology, n: NodeId, pipe: seq<Piped>, tx: map<NodeId, Slots>, i: nat)
    requires 0 < i < |pipe|
    ensures Departs(T, n, pipe, tx, i) <==> Departs(T, n, pipe[1..], Filled(T, n, pipe[0], tx), i - 1)
  {
    var m, c := T.Next(n, pipe[i].pack.tgt), pipe[i].pack.cha;
    var tx1 := Filled(T, n, pipe[0], tx);
    assert SlotFree(tx1, m, c) <==> SlotFree(tx, m, c) && !Heading(T, n, pipe[0], m, c);
    forall k | 0 <= k < i - 1 ensures pipe[1..][k] == pipe[k + 1] {
    }
    if Departs(T, n, pipe[1..], tx1, i - 1) {
      forall k | 0 <= k < i ensures !Heading(T, n, pipe[k], m, c) {
        if k > 0 {
          assert pipe[1..][k - 1] == pipe[k];
        }
      }
    }
  }

  /** The pass puts those that depart on their link, and keeps all others, one cycle older. */
  lemma {:induction false} PassTurn(T: Topology, n: NodeId, pipe: seq<Piped>, tx: map<NodeId, Slots>, i: nat)
    returns (k: nat)
    requires i < |pipe|
    ensures var r, e := Release(T, n, pipe, tx), pipe[i];
            if Departs(T, n, pipe, tx, i) then TxSlot(r.1, T.Next(n, e.pack.tgt), e.pack.cha) == Some(e.pack)
            else k <= i && k < |r.0| && r.0[k] == Aged(e)
    decreases |pipe|
  {
    var tx1 := Filled(T, n, pipe[0], tx);
    var rest := Release(T, n, pipe[1..], tx1);
    if i == 0 {
      k := 0;
      ReleaseFills(T, n, pipe[1..], tx1);
    } else {
      DepartsTail(T, n, pipe, tx, i);
      var at := PassTurn(T, n, pipe[1..], tx1, i - 1);
      k := if Leaves(T, n, pipe[0], tx) then at else at + 1;
    }
  }

  /** The packet is in one of the registers of the link. */
  predicate OnLink(s: Net, l: Link, c: nat, p: Packet) {
    At(s, OnInput(l, c)) == Some(p) || At(s, OnOutput(l, c)) == Some(p)
  }

  lemma StaysOnLink(e: Edge, e': Edge, c: nat, p: Packet)
    requires Moved(e, e') && |e.input| == |e.output| && (Slot(e.input, c) == Some(p) || Slot(e.output, c) == Some(p))
    ensures Slot(e'.input, c) == Some(p) || Slot(e'.output, c) == Some(p)
    ensures Slot(e.output, c) == Some(p) ==> Slot(e'.output, c) == Some(p)
  {
    assert e.input[c] == e.input[c];
  }

  /** What the node phase leaves on a link is still on it after the tick. */
  lemma LinkKeeps(T: Topology, sent: seq<Message>, s: Net, l: Link, c: nat, p: Packet)
    requires T.Valid() && PlacesOk(T, sent, s) && l in s.edges
    requires OnLink(NodePhase(T, s), l, c, p)
    ensures OnLink(Tick(T, s), l, c, p)
    ensures At(NodePhase(T, s), OnOutput(l, c)) == Some(p) ==> At(Tick(T, s), OnOutput(l, c)) == Some(p)
  {
    hide PlacesOk, NodePhase, Tick, Transfer, Topology.Valid;
    TickEdge(T, s, l);
    NodePhasePlaces(T, sent, s);
    LinkEndNodes(T, sent, NodePhase(T, s), l);
    var e := NodePhase(T, s).edges[l];
    TransferMoves(T.config.linkWidth, e, 0, 0);
    StaysOnLink(e, Tick(T, s).edges[l], c, p);
  }

  lemma NextLink(T: Topology, sent: seq<Message>, s: Net, n: NodeId, p: Packet)
    requires T.Valid() && PlacesOk(T, sent, s) && n in s.nodes && RightPlace(T, sent, n, p)
    ensures var m := T.Next(n, p.tgt); m != n && (n, m) in s.edges && m in s.nodes && p.cha < T.Channels()
    ensures |EdgeAt(s, (n, T.Next(n, p.tgt))).input| == T.Channels()
  {
    hide OnPath, Topology.Valid, NodesOk, EdgesOk, PortsOk;
    WiredNodes(T, sent, s);
    PacketTarget(T, sent, n, p);
    Hop(T, n, p.tgt);
    LinkEndNodes(T, sent, s, (n, T.Next(n, p.tgt)));
  }

  /** The `i`-th packet of the pipeline leaves with the next pass: its wait is over and its link input is free. */
  ghost predicate Leaving(T: Topology, s: Net, n: NodeId, i: nat) {
    && i < |PipeAt(s, n)|
    && var e := PipeAt(s, n)[i];
    var m, c := T.Next(n, e.pack.tgt), e.pack.cha;
    && e.remain == 0 && Slot(EdgeAt(s, (n, m)).input, c).None?
    && forall k :: 0 <= k < i ==> !Heading(T, n, PipeAt(s, n)[k], m, c)
  }

  /** The packet is still in the pipeline, no further back, and has one cycle less to wait. */
  ghost predicate OneCycleOlder(s: Net, n: NodeId, i: nat, e: Piped) {
    exists k: nat :: k <= i && k < |PipeAt(s, n)|
                     && PipeAt(s, n)[k] == Piped(e.pack, if e.remain > 0 then e.remain - 1 else 0)
  }

  /**
   What becomes of a packet inside a node: it goes onto its link as soon as its wait is over, the link input of its
   channel is free and no packet before it goes the same way, whatever stands before it otherwise; until then it stays,
   and its wait gets shorter by one.
   */
  lemma PipelineTurn(T: Topology, h: History, s: Net, n: NodeId, i: nat)
    requires T.Valid() && Inv(T, h, s) && i < |PipeAt(s, n)|
    ensures var e, s' := PipeAt(s, n)[i], Tick(T, s);
            if Leaving(T, s, n, i) then OnLink(s', (n, T.Next(n, e.pack.tgt)), e.pack.cha, e.pack)
            else OneCycleOlder(s', n, i, e)
  {
    hide Inv, PlacesOk, GetView, Topology.Valid, Tick, NodePhase, Entering, Departs, Leaving;
    InvPlaces(T, h, s);
    var v, e := GetView(T, s, n), PipeAt(s, n)[i];
    ViewNode(T, s, n);
    var pipe := PipeIn(T, n, v);
    assert pipe[i] == e;
    TravellerStage(T, h.sent, s, Piping(n, i), e.pack);
    NextLink(T, h.sent, s, n, e.pack);
    LeavingDeparts(T, h.sent, s, n, i);
    var k := PassTurn(T, n, pipe, v.tx, i);
    TickNode(T, s, n);
    hide Release;
    if Leaving(T, s, n, i) {
      PutOnLink(T, h.sent, s, n, e.pack);
    } else {
      assert PipeAt(Tick(T, s), n)[k] == Aged(e);
    }
  }

  lemma LeavingDeparts(T: Topology, sent: seq<Message>, s: Net, n: NodeId, i: nat)
    requires T.Valid() && PlacesOk(T, sent, s) && n in s.nodes && i < |PipeAt(s, n)|
    requires RightPlace(T, sent, n, PipeAt(s, n)[i].pack)
    ensures i < |PipeIn(T, n, GetView(T, s, n))|
    ensures Leaving(T, s, n, i) <==> Departs(T, n, PipeIn(T, n, GetView(T, s, n)), GetView(T, s, n).tx, i)
  {
    hide PlacesOk, GetView, Topology.Valid, Entering, RightPlace;
    var v := GetView(T, s, n);
    ViewNode(T, s, n);
    var pipe := PipeIn(T, n, v);
    NextLink(T, sent, s, n, PipeAt(s, n)[i].pack);
    ViewLink(T, s, (n, T.Next(n, PipeAt(s, n)[i].pack.tgt)));
    forall k | 0 <= k <= i ensures pipe[k] == PipeAt(s, n)[k] {
    }
  }

  lemma PutOnLink(T: Topology, sent: seq<Message>, s: Net, n: NodeId, p: Packet)
    requires T.Valid() && PlacesOk(T, sent, s) && (n, T.Next(n, p.tgt)) in s.edges
    requires var v := GetView(T, s, n);
             n in s.nodes && TxSlot(Release(T, n, PipeIn(T, n, v), v.tx).1, T.Next(n, p.tgt), p.cha) == Some(p)
    ensures OnLink(Tick(T, s), (n, T.Next(n, p.tgt)), p.cha, p)
  {
    hide PlacesOk, GetView, Topology.Valid, Tick, NodePhase, PipeIn, Release;
    SenderAfter(T, sent, s, n, T.Next(n, p.tgt));
    LinkKeeps(T, sent, s, (n, T.Next(n, p.tgt)), p.cha, p);
  }

  // ----- The packets at the door -----

  /** The packet is at its destination: collected by the node, or in the receive buffer of its port. */
  ghost predicate Arrives(s: Net, n: NodeId, p: Packet) {
    || (exists i :: At(s, Ordering(n, p.xmt, i)) == Some(p))
    || (exists i :: At(s, Waiting(p.dst, p.cha, i)) == Some(p))
  }

  /** The packet has joined the pipeline; without latency it can already be on its next link. */
  ghost predicate Enters(T: Topology, s: Net, n: NodeId, p: Packet) {
    || (exists i: nat :: i < |PipeAt(s, n)| && PipeAt(s, n)[i].pack == p
                         && PipeAt(s, n)[i].remain == if T.config.latency > 0 then T.config.latency - 1 else 0)
    || (T.config.latency == 0 && OnLink(s, (n, T.Next(n, p.tgt)), p.cha, p))
  }

  lemma InsertedAt(l: seq<Packet>, p: Packet) returns (i: nat)
    ensures i < |InsertByIdx(l, p)| && InsertByIdx(l, p)[i] == p
    decreases |l|
  {
    if l == [] || l[0].idx >= p.idx {
      i := 0;
    } else {
      i := InsertedAt(l[1..], p);
      i := i + 1;
    }
  }

  lemma DeliveredThere(ports: map<PortId, Port>, orderBuf: OrderBuf, p: Packet)
    requires p.dst in ports && p.cha < |ports[p.dst].recvBuf|
    ensures var d := Deliver(ports, orderBuf, p);
            || (exists i :: 0 <= i < |Collected(d.1, p.xmt)| && Collected(d.1, p.xmt)[i] == p)
            || (p.dst in d.0 && p.cha < |d.0[p.dst].recvBuf|
                && exists i :: 0 <= i < |d.0[p.dst].recvBuf[p.cha]| && d.0[p.dst].recvBuf[p.cha][i] == p)
  {
    hide InsertByIdx;
    var d, buf := Deliver(ports, orderBuf, p), ports[p.dst].recvBuf[p.cha];
    if p.cnt <= 1 {
      assert d.0[p.dst].recvBuf[p.cha] == buf + [p];
      assert d.0[p.dst].recvBuf[p.cha][|buf|] == p;
    } else {
      var l := InsertByIdx(Collected(orderBuf, p.xmt), p);
      var i := InsertedAt(Collected(orderBuf, p.xmt), p);
      if |l| == p.cnt {
        assert d.0[p.dst].recvBuf[p.cha] == buf + l;
        assert d.0[p.dst].recvBuf[p.cha][|buf| + i] == p;
      } else {
        assert Collected(d.1, p.xmt) == l;
      }
    }
  }

  lemma DeliveredAtNode(T: Topology, h: History, s: Net, n: NodeId, p: Packet)
    requires T.Valid() && Inv(T, h, s) && n in s.nodes && EnteringAt(T, s, n) == Some(p) && p.tgt == n
    ensures Arrives(Tick(T, s), n, p)
  {
    hide Inv, PlacesOk, GetView, Topology.Valid, Tick, Entering, Deliver, Genuine, Taken, ViewOk, OnPath, RightPlace;
    InvPlaces(T, h, s);
    var v, s' := GetView(T, s, n), Tick(T, s);
    SeenByNode(T, h.sent, s, n);
    EnteringOk(T, h.sent, n, v);
    PacketPort(T, h.sent, s, p);
    ViewPort(T, s, p.dst);
    RecvWidth(T, h.sent, s, p.dst);
    PoppedBuffers(T, n, v, p.dst);
    DeliveredThere(Popped(T, n, v), v.node.orderBuf, p);
    TickNode(T, s, n);
    TickPort(T, h.sent, s, p.dst);
    ArrivesFrom(s', n, p, Deliver(Popped(T, n, v), v.node.orderBuf, p));
  }

  lemma PacketPort(T: Topology, sent: seq<Message>, s: Net, p: Packet)
    requires PlacesOk(T, sent, s) && Genuine(T, sent, p)
    ensures p.dst in s.ports && T.NodeOf(p.dst) == p.tgt && p.cha < T.Channels()
  {
    hide NodesOk, EdgesOk, PortsOk;
  }

  lemma ArrivesFrom(s: Net, n: NodeId, p: Packet, d: (map<PortId, Port>, OrderBuf))
    requires n in s.nodes && s.nodes[n].orderBuf == d.1 && p.dst in s.ports && p.dst in d.0
             && s.ports[p.dst] == d.0[p.dst]
    requires || (exists i :: 0 <= i < |Collected(d.1, p.xmt)| && Collected(d.1, p.xmt)[i] == p)
             || (p.cha < |d.0[p.dst].recvBuf|
                 && exists i :: 0 <= i < |d.0[p.dst].recvBuf[p.cha]| && d.0[p.dst].recvBuf[p.cha][i] == p)
    ensures Arrives(s, n, p)
  {
    if i :| 0 <= i < |Collected(d.1, p.xmt)| && Collected(d.1, p.xmt)[i] == p {
      assert At(s, Ordering(n, p.xmt, i)) == Some(p);
    } else {
      var i :| 0 <= i < |d.0[p.dst].recvBuf[p.cha]| && d.0[p.dst].recvBuf[p.cha][i] == p;
      assert At(s, Waiting(p.dst, p.cha, i)) == Some(p);
    }
  }

  lemma EnteredNode(T: Topology, h: History, s: Net, n: NodeId, p: Packet)
    requires T.Valid() && Inv(T, h, s) && n in s.nodes && EnteringAt(T, s, n) == Some(p) && p.tgt != n
    ensures Enters(T, Tick(T, s), n, p)
  {
    hide Inv, PlacesOk, GetView, Topology.Valid, Tick, Entering, Genuine, Taken, ViewOk, OnPath, RightPlace, Departs;
    InvPlaces(T, h, s);
    var v := GetView(T, s, n);
    SeenByNode(T, h.sent, s, n);
    EnteringOk(T, h.sent, n, v);
    NextLink(T, h.sent, s, n, p);
    var pipe, i := PipeIn(T, n, v), |v.node.pipeline|;
    assert pipe[i] == Piped(p, T.config.latency);
    var k := PassTurn(T, n, pipe, v.tx, i);
    TickNode(T, s, n);
    hide Release;
    if Departs(T, n, pipe, v.tx, i) {
      DepartsNow(T, n, pipe, v.tx, i);
      PutOnLink(T, h.sent, s, n, p);
    } else {
      assert PipeAt(Tick(T, s), n)[k] == Aged(pipe[i]);
    }
  }

  lemma DepartsNow(T: Topology, n: NodeId, pipe: seq<Piped>, tx: map<NodeId, Slots>, i: nat)
    requires i < |pipe| && Departs(T, n, pipe, tx, i)
    ensures pipe[i].remain == 0
  {
  }

  lemma ArrivalPlace(s: Net, n: NodeId, p: Packet) returns (pl: Place)
    requires Arrives(s, n, p)
    ensures (pl.Ordering? || pl.Waiting?) && At(s, pl) == Some(p)
  {
    hide At;
    if i :| At(s, Ordering(n, p.xmt, i)) == Some(p) {
      pl := Ordering(n, p.xmt, i);
    } else {
      var i :| At(s, Waiting(p.dst, p.cha, i)) == Some(p);
      pl := Waiting(p.dst, p.cha, i);
    }
  }

  lemma EntrancePlace(T: Topology, s: Net, n: NodeId, p: Packet) returns (pl: Place)
    requires Enters(T, s, n, p)
    ensures pl.Piping? || ((pl.OnInput? || pl.OnOutput?) && pl.l == (n, T.Next(n, p.tgt)))
    ensures At(s, pl) == Some(p)
  {
    var l := (n, T.Next(n, p.tgt));
    if i: nat :| i < |PipeAt(s, n)| && PipeAt(s, n)[i].pack == p {
      pl := Piping(n, i);
    } else {
      pl := if At(s, OnInput(l, p.cha)) == Some(p) then OnInput(l, p.cha) else OnOutput(l, p.cha);
    }
  }

  /** A packet that is somewhere else has left. */
  lemma Elsewhere(T: Topology, h: History, s: Net, pl: Place, there: Place, p: Packet)
    requires T.Valid() && Inv(T, h, s) && At(s, there) == Some(p) && pl != there
    ensures At(s, pl) != Some(p)
  {
    hide Inv, At, Topology.Valid;
    if At(s, pl) == Some(p) {
      AtMostOnePlace(T, h, s, pl, there, p);
    }
  }

  /** The packet at a door of `n` is not on the link that it takes from there. */
  lemma NotNextLink(T: Topology, h: History, s: Net, n: NodeId, pl: Place, p: Packet)
    requires T.Valid() && Inv(T, h, s) && HasTurn(T, s, n, pl) && At(s, pl) == Some(p) && p.tgt != n
             && LetIn(T, s, n, p)
    ensures pl.Queued? || (pl.OnOutput? && pl.l != (n, T.Next(n, p.tgt)))
  {
    hide Inv, PlacesOk, GetView, Topology.Valid, At, LinkTurn, PortTurn, Taken, ViewOk, RightPlace;
    InvPlaces(T, h, s);
    TurnIsTaken(T, h, s, n, pl, p);
    SeenByNode(T, h.sent, s, n);
    EnteringOk(T, h.sent, n, GetView(T, s, n));
    NextLink(T, h.sent, s, n, p);
  }

  /** What is not taken stays. */
  lemma StaysAtDoor(T: Topology, sent: seq<Message>, s: Net, n: NodeId, pl: Place, p: Packet)
    requires T.Valid() && PlacesOk(T, sent, s) && Offered(T, s, n, pl) && At(s, pl) == Some(p) && n in s.nodes
    requires Taken(T, n, GetView(T, s, n)) != ChoiceOf(pl)
    ensures At(Tick(T, s), pl) == Some(p)
  {
    hide PlacesOk, GetView, Topology.Valid, Taken, Tick, NodePhase;
    OfferedNode(T, sent, s, n, pl);
    match pl
    case OnOutput(l, c) =>
      ReceiverAfter(T, sent, s, l.0, l.1);
      ViewLink(T, s, l) by {
        LinkEndNodes(T, sent, s, l);
      }
      NotTaken(T, n, GetView(T, s, n), l.0, c);
      LinkKeeps(T, sent, s, l, c, p);
    case Queued(q, c, i) =>
      RecvWidth(T, sent, s, q);
      TickQueue(T, sent, s, q, c);
  }

  lemma NotTaken(T: Topology, n: NodeId, v: View, k: NodeId, c: nat)
    requires k in v.rx && Taken(T, n, v) != FromLink(k, c)
    ensures k in RxOut(T, n, v) && Slot(RxOut(T, n, v)[k], c) == Slot(v.rx[k], c)
  {
    hide Arbitrate;
  }

  /**
   What becomes of the packet whose turn it is. One that has reached its destination is handed over at once, whatever
   else the node holds. Any other is taken into the pipeline, unless congestion control is on and the pipeline is at its
   limit: then, and only then, it stays where it was.
   */
  lemma Admission(T: Topology, h: History, s: Net, n: NodeId, pl: Place, p: Packet)
    requires T.Valid() && Inv(T, h, s) && HasTurn(T, s, n, pl) && At(s, pl) == Some(p)
    ensures var s' := Tick(T, s);
            if p.tgt == n then At(s', pl) != Some(p) && Arrives(s', n, p)
            else if !T.config.congestion.enabled || |PipeAt(s, n)| < T.config.congestion.limit
            then At(s', pl) != Some(p) && Enters(T, s', n, p)
            else At(s', pl) == Some(p)
  {
    hide Inv, PlacesOk, GetView, Topology.Valid, Tick, At, HasTurn, Arrives, Enters, Taken, EnteringAt;
    InvPlaces(T, h, s);
    TurnIsTaken(T, h, s, n, pl, p);
    TickInv(T, h, s);
    if p.tgt == n {
      DeliveredAtNode(T, h, s, n, p);
      var there := ArrivalPlace(Tick(T, s), n, p);
      Elsewhere(T, h, Tick(T, s), pl, there, p);
    } else if LetIn(T, s, n, p) {
      EnteredNode(T, h, s, n, p);
      var there := EntrancePlace(T, Tick(T, s), n, p);
      NotNextLink(T, h, s, n, pl, p);
      Elsewhere(T, h, Tick(T, s), pl, there, p);
    } else {
      TurnIsOffered(T, s, n, pl);
      OfferedAtOwn(T, h.sent, s, n, pl);
      StaysAtDoor(T, h.sent, s, n, pl, p);
    }
  }

  lemma OfferedAtOwn(T: Topology, sent: seq<Message>, s: Net, n: NodeId, pl: Place)
    requires T.Valid() && PlacesOk(T, sent, s) && HasTurn(T, s, n, pl)
    ensures Offered(T, s, n, pl)
  {
    hide LinkTurn, NodesOk, EdgesOk, PortsOk, Topology.ConfigValid, AllReachable;
    if pl.Queued? {
      var j: nat :| j < |T.Attached(n)| && T.Attached(n)[j] == pl.q && PortTurn(T, s, n, j, pl.c);
      assert pl.q in T.Attached(n);
    }
  }

  /** A link output whose turn it is not keeps its packet. */
  lemma OutputOutOfTurn(T: Topology, h: History, s: Net, l: Link, c: nat, p: Packet)
    requires T.Valid() && Inv(T, h, s) && At(s, OnOutput(l, c)) == Some(p) && !HasTurn(T, s, l.1, OnOutput(l, c))
    ensures At(Tick(T, s), OnOutput(l, c)) == Some(p)
  {
    hide Inv, PlacesOk, GetView, Topology.Valid, At, HasTurn, Tick, Taken;
    var n, pl := l.1, OnOutput(l, c);
    InvPlaces(T, h, s);
    OfferedNode(T, h.sent, s, n, pl);
    var next := SomeTurn(T, h.sent, s, n, pl);
    TurnIsTaken(T, h, s, n, next, At(s, next).value);
    TurnIsOffered(T, s, n, next);
    StaysAtDoor(T, h.sent, s, n, pl, p);
  }

  lemma TurnIsOffered(T: Topology, s: Net, n: NodeId, pl: Place)
    requires HasTurn(T, s, n, pl)
    ensures pl.OnOutput? || pl.Queued?
    ensures pl.OnOutput? ==> pl.l.1 == n
    ensures pl.Queued? ==> pl.i == 0
  {
    hide LinkTurn, PortTurn;
  }

  /** The first packet of a send queue has its turn, and is let in. */
  ghost predicate Dequeues(T: Topology, s: Net, q: PortId, c: nat) {
    && QueueAt(s, q, c) != [] && HasTurn(T, s, T.NodeOf(q), Queued(q, c, 0))
    && LetIn(T, s, T.NodeOf(q), QueueAt(s, q, c)[0])
  }

  /** Then, and only then, the queue changes: it loses that packet. */
  lemma QueueTurn(T: Topology, h: History, s: Net, q: PortId, c: nat)
    requires T.Valid() && Inv(T, h, s) && q in s.ports && c < T.Channels()
    ensures Dequeues(T, s, q, c) ==> QueueAt(s, q, c) == [QueueAt(s, q, c)[0]] + QueueAt(Tick(T, s), q, c)
    ensures !Dequeues(T, s, q, c) ==> QueueAt(Tick(T, s), q, c) == QueueAt(s, q, c)
  {
    hide Inv, PlacesOk, GetView, Topology.Valid, HasTurn, Tick, Taken, LetIn;
    var n, pl := T.NodeOf(q), Queued(q, c, 0);
    InvPlaces(T, h, s);
    TickQueue(T, h.sent, s, q, c);
    if QueueAt(s, q, c) != [] {
      assert At(s, pl) == Some(QueueAt(s, q, c)[0]);
      hide At;
      var next := SomeTurn(T, h.sent, s, n, pl);
      TurnIsTaken(T, h, s, n, next, At(s, next).value);
      TurnIsOffered(T, s, n, next);
      if HasTurn(T, s, n, pl) {
        OneTurn(T, h, s, n, pl, next);
      }
    }
  }

  /** The packet on a link output has its turn, and is let in. */
  ghost predicate Clears(T: Topology, s: Net, l: Link, c: nat) {
    var pl := OnOutput(l, c);
    At(s, pl).Some? && HasTurn(T, s, l.1, pl) && LetIn(T, s, l.1, At(s, pl).value)
  }

  /**
   Then, and only then, the output is free for the next packet when the links have their part of the tick; what was on
   the input is still there.
   */
  lemma LinkTurnOver(T: Topology, h: History, s: Net, l: Link, c: nat)
    requires T.Valid() && Inv(T, h, s) && l in s.edges && c < T.Channels()
    ensures At(NodePhase(T, s), OnOutput(l, c)) == if Clears(T, s, l, c) then None else At(s, OnOutput(l, c))
    ensures At(s, OnInput(l, c)).Some? ==> At(NodePhase(T, s), OnInput(l, c)) == At(s, OnInput(l, c))
  {
    hide Inv, PlacesOk, GetView, Topology.Valid, HasTurn, NodePhase, Taken, LetIn, Release;
    var n, pl := l.1, OnOutput(l, c);
    InvPlaces(T, h, s);
    LinkEndNodes(T, h.sent, s, l);
    ViewLink(T, s, l);
    ReceiverAfter(T, h.sent, s, l.0, n);
    SenderAfter(T, h.sent, s, l.0, n);
    ReleaseFills(T, l.0, PipeIn(T, l.0, GetView(T, s, l.0)), GetView(T, s, l.0).tx);
    if At(s, pl).Some? {
      var next := SomeTurn(T, h.sent, s, n, pl);
      TurnIsTaken(T, h, s, n, next, At(s, next).value);
      TurnIsOffered(T, s, n, next);
      if HasTurn(T, s, n, pl) {
        OneTurn(T, h, s, n, pl, next);
      }
    }
    OutputIs(T, n, GetView(T, s, n), l.0, c);
  }

  lemma OutputIs(T: Topology, n: NodeId, v: View, k: NodeId, c: nat)
    requires k in v.rx && k in RxOut(T, n, v)
    ensures Slot(RxOut(T, n, v)[k], c) == if Taken(T, n, v) == FromLink(k, c) then None else Slot(v.rx[k], c)
  {
    hide Arbitrate;
  }
}
