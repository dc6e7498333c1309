/** Round-robin arbitration: how long an occupied link can be passed over. */
module NocFairness {
  import opened Wrappers
  import opened RouteTable
  import opened NocState
  import opened NocInvariant
  import opened NocFlow
  import opened NocSystem
  import opened NocTick
  import opened NocRuns
  import opened NocProgress
  import opened NocTiming

  function LinkOutput(s: Net, k: NodeId, n: NodeId): Slots {
    if (k, n) in s.edges then s.edges[(k, n)].output else []
  }

  predicate Occupied(slots: Slots) {
    exists d :: 0 <= d < |slots| && slots[d].Some?
  }

  /** A packet waits for node `n` at the end of its `j`-th incoming link. */
  predicate Waiting(T: Topology, s: Net, n: NodeId, j: nat) {
    n in s.nodes && j < |T.Rxs(n)| && Occupied(LinkOutput(s, T.Rxs(n)[j], n))
  }

  /** What node `n` admits in a tick from this state. */
  function Admitted(T: Topology, s: Net, n: NodeId): Choice {
    if n in s.nodes then Taken(T, n, GetView(T, s, n)) else NoChoice
  }

  function RxPtr(s: Net, n: NodeId): nat { if n in s.nodes then s.nodes[n].rxPtr else 0 }

  /** One arbitration: it takes a link if one waits, and every admission from another link brings the pointer closer. */
  lemma PointerCloser(T: Topology, sent: seq<Message>, n: NodeId, v: View, j: nat)
    requires T.Valid() && n in T.nodes && ViewOk(T, sent, n, v)
    requires j < |T.Rxs(n)| && T.Rxs(n)[j] in v.rx && Occupied(v.rx[T.Rxs(n)[j]])
    ensures var froms, taken, ptr := T.Rxs(n), Taken(T, n, v), ProcessNode(T, n, v).node.rxPtr;
            && v.node.rxPtr < |froms| && ptr < |froms| && !taken.FromPort?
            && (taken.FromLink? ==> taken.k in froms)
            && (taken == NoChoice ==> Forward(ptr, j, |froms|) <= Forward(v.node.rxPtr, j, |froms|))
            && (taken.FromLink? && taken.k != froms[j] ==> Forward(ptr, j, |froms|) < Forward(v.node.rxPtr, j, |froms|))
  {
    hide Topology.Valid, ViewOk, ScanLinks, ScanPorts, Chosen, Accepts, Handed, PipeIn, Release, RxOut, BufferedAfter;
    var froms := T.Rxs(n);
    NeighboursThere(T, sent, n, v);
    var d :| 0 <= d < |v.rx[froms[j]]| && v.rx[froms[j]][d].Some?;
    ForwardBound(v.node.rxPtr, j, |froms|);
    ScanLinksFinds(froms, v.rx, v.node.rxPtr, |froms|, j, d);
    var r := ScanLinks(froms, v.rx, v.node.rxPtr, |froms|);
    if r.0 != j {
      ForwardStep(r.0, j, |froms|);
    } else {
      PointerAfter(r.0, |froms|);
    }
  }

  lemma PointerAfter(ptr: nat, n: nat)
    requires ptr < n
    ensures Inc(ptr, n) < n
  {
  }

  /** A tick that does not serve the waiting link leaves it waiting. */
  lemma StillWaiting(T: Topology, h: History, s: Net, n: NodeId, j: nat)
    requires T.Valid() && Inv(T, h, s) && Waiting(T, s, n, j) && n in T.nodes
    requires var taken := Admitted(T, s, n); taken.FromLink? ==> taken.k != T.Rxs(n)[j]
    ensures Waiting(T, Tick(T, s), n, j)
  {
    hide Inv, PlacesOk, GetView, Tick, NodePhase, Topology.Valid, Taken, Transfer, Arbitrate;
    var k := T.Rxs(n)[j];
    var l := (k, n);
    InvPlaces(T, h, s);
    LinkEndNodes(T, h.sent, s, l);
    ReceiverAfter(T, h.sent, s, k, n);
    ViewLink(T, s, l);
    TickEdge(T, s, l);
    TickNodeIs(T, s, n);
    var mid := NodePhase(T, s).edges[l];
    TransferMoves(T.config.linkWidth, mid, 0, 0);
    NodePhasePlaces(T, h.sent, s);
    LinkEndNodes(T, h.sent, NodePhase(T, s), l);
    var d :| 0 <= d < |s.edges[l].output| && s.edges[l].output[d].Some?;
    assert mid.output[d].Some?;
    assert mid.input[d] == mid.input[d];
    assert Tick(T, s).edges[l].output[d].Some?;
  }

  /** How many links the pointer still has to pass before the `j`-th. */
  function Gap(T: Topology, s: Net, n: NodeId, j: nat): nat {
    if RxPtr(s, n) < |T.Rxs(n)| && j < |T.Rxs(n)| then Forward(RxPtr(s, n), j, |T.Rxs(n)|) else 0
  }

  ghost predicate Nearer(T: Topology, s: Net, s': Net, n: NodeId, j: nat) {
    var taken := Admitted(T, s, n);
    && !taken.FromPort?
    && (taken == NoChoice ==> Gap(T, s', n, j) <= Gap(T, s, n, j) && Waiting(T, s', n, j))
    && (taken.FromLink? && j < |T.Rxs(n)| && taken.k != T.Rxs(n)[j] ==>
          Gap(T, s', n, j) < Gap(T, s, n, j) && Waiting(T, s', n, j))
  }

  lemma TickCloser(T: Topology, h: History, s: Net, n: NodeId, j: nat)
    requires T.Valid() && Inv(T, h, s) && Waiting(T, s, n, j)
    ensures Nearer(T, s, Tick(T, s), n, j)
  {
    hide Inv, PlacesOk, GetView, ViewOk, Tick, Topology.Valid, Taken, ProcessNode, Occupied;
    InvPlaces(T, h, s);
    WiredNodes(T, h.sent, s);
    ViewIsOk(T, h.sent, s, n);
    var k := T.Rxs(n)[j];
    LinkSeen(T, h.sent, s, n, j);
    PointerCloser(T, h.sent, n, GetView(T, s, n), j);
    TickNodeIs(T, s, n);
    OwnPointer(T, s, n);
    if Admitted(T, s, n).FromLink? ==> Admitted(T, s, n).k != k {
      StillWaiting(T, h, s, n, j);
    }
  }

  lemma OwnPointer(T: Topology, s: Net, n: NodeId)
    requires n in s.nodes
    ensures GetView(T, s, n).node.rxPtr == RxPtr(s, n)
  {
  }

  lemma LinkSeen(T: Topology, sent: seq<Message>, s: Net, n: NodeId, j: nat)
    requires T.Valid() && PlacesOk(T, sent, s) && n in T.nodes && n in s.nodes && j < |T.Rxs(n)|
    ensures var k := T.Rxs(n)[j]; k in GetView(T, s, n).rx && GetView(T, s, n).rx[k] == LinkOutput(s, k, n)
  {
    hide GetView, NodesOk, EdgesOk, PortsOk, AllReachable;
    var k := T.Rxs(n)[j];
    assert k in T.Rxs(n);
    assert (k, n) in T.links;
    assert s.edges[(k, n)] == s.edges[(k, n)];
    ViewLink(T, s, (k, n));
  }

  // ----- Priorities -----

  /** What the choice of arbitration promises about everything it has passed over. */
  ghost predicate FirstInOrder(v: View, choice: Choice) {
    match choice
    case FromLink(k, c) =>
      k in v.rx && c < |v.rx[k]| && v.rx[k][c].Some? && forall d :: 0 <= d < c ==> v.rx[k][d].None?
    case FromPort(q, c) =>
      && (forall k :: k in v.rx ==> !Occupied(v.rx[k]))
      && q in v.ports && c < |v.ports[q].sendBuf| && v.ports[q].sendBuf[c] != []
      && forall d :: 0 <= d < c ==> v.ports[q].sendBuf[d] == []
    case NoChoice =>
      && (forall k :: k in v.rx ==> !Occupied(v.rx[k]))
      && (forall q, d :: q in v.ports && 0 <= d < |v.ports[q].sendBuf| ==> v.ports[q].sendBuf[d] == [])
  }

  lemma {:induction false} LowestQueued(queues: seq<seq<Packet>>, c: nat)
    ensures FirstQueued(queues, c).Some? ==>
              var d := FirstQueued(queues, c).value;
              c <= d < |queues| && queues[d] != [] && forall i :: c <= i < d ==> queues[i] == []
    decreases |queues| - c
  {
    if c < |queues| {
      LowestQueued(queues, c + 1);
    }
  }

  lemma {:induction false} LinkChoice(froms: seq<NodeId>, rx: map<NodeId, Slots>, ptr: nat, tries: nat)
    ensures var r := ScanLinks(froms, rx, ptr, tries).1;
            r != NoChoice ==> r.FromLink? && r.k in rx && FirstFull(rx[r.k], 0) == Some(r.c)
    decreases tries
  {
    if tries > 0 && ptr < |froms| && froms[ptr] in rx && FirstFull(rx[froms[ptr]], 0).None? {
      LinkChoice(froms, rx, Inc(ptr, |froms|), tries - 1);
    }
  }

  lemma {:induction false} PortChoice(ids: seq<PortId>, ports: map<PortId, Port>, ptr: nat, tries: nat)
    ensures var r := ScanPorts(ids, ports, ptr, tries).1;
            r != NoChoice ==> r.FromPort? && r.q in ports && FirstQueued(ports[r.q].sendBuf, 0) == Some(r.c)
    decreases tries
  {
    if tries > 0 && ptr < |ids| && ids[ptr] in ports && FirstQueued(ports[ids[ptr]].sendBuf, 0).None? {
      PortChoice(ids, ports, Inc(ptr, |ids|), tries - 1);
    }
  }

  /** Links come before ports and low channels before high ones, and nothing is chosen only if nothing is there. */
  lemma FixedPriorities(T: Topology, sent: seq<Message>, n: NodeId, v: View)
    requires T.Valid() && n in T.nodes && ViewOk(T, sent, n, v)
    ensures FirstInOrder(v, Arbitrate(T.Rxs(n), T.Attached(n), v).choice)
  {
    hide Topology.Valid, ViewOk, ScanLinks, ScanPorts, FirstFull, FirstQueued, Arbitrate;
    var froms, ids := T.Rxs(n), T.Attached(n);
    var choice := Arbitrate(froms, ids, v).choice;
    ChoiceIs(froms, ids, v);
    LinkChoice(froms, v.rx, v.node.rxPtr, |froms|);
    PortChoice(ids, v.ports, v.node.sdPtr, |ids|);
    match choice {
      case FromLink(k, c) =>
        LowestFull(v.rx[k], 0);
      case FromPort(q, c) =>
        LowestQueued(v.ports[q].sendBuf, 0);
        AllLinksEmpty(T, sent, n, v);
      case NoChoice =>
        AllLinksEmpty(T, sent, n, v);
        forall q, d | q in v.ports && 0 <= d < |v.ports[q].sendBuf| ensures v.ports[q].sendBuf[d] == [] {
          if v.ports[q].sendBuf[d] != [] {
            CandidateFound(T, sent, n, v);
          }
        }
    }
  }

  lemma ChoiceIs(froms: seq<NodeId>, ids: seq<PortId>, v: View)
    ensures var links := ScanLinks(froms, v.rx, v.node.rxPtr, |froms|).1;
            Arbitrate(froms, ids, v).choice == if links != NoChoice then links
            else ScanPorts(ids, v.ports, v.node.sdPtr, |ids|).1
  {
    hide ScanLinks, ScanPorts;
  }

  /** If no link is chosen, no link has anything to offer. */
  lemma AllLinksEmpty(T: Topology, sent: seq<Message>, n: NodeId, v: View)
    requires T.Valid() && n in T.nodes && ViewOk(T, sent, n, v)
    ensures !ScanLinks(T.Rxs(n), v.rx, v.node.rxPtr, |T.Rxs(n)|).1.FromLink? ==>
              forall k :: k in v.rx ==> !Occupied(v.rx[k])
  {
    hide Topology.Valid, ViewOk, ScanLinks;
    var froms := T.Rxs(n);
    NeighboursThere(T, sent, n, v);
    forall k | k in v.rx && Occupied(v.rx[k]) ensures ScanLinks(froms, v.rx, v.node.rxPtr, |froms|).1.FromLink? {
      assert k in froms;
      var j :| 0 <= j < |froms| && froms[j] == k;
      var d :| 0 <= d < |v.rx[k]| && v.rx[k][d].Some?;
      ForwardBound(v.node.rxPtr, j, |froms|);
      ScanLinksFinds(froms, v.rx, v.node.rxPtr, |froms|, j, d);
    }
  }

  // ----- Over a run -----

  /** How often node `n` admits a packet during the run. */
  ghost function Admissions(T: Topology, st: State, ops: seq<Op>, n: NodeId): nat
    requires T.Valid() && Good(T, st) && RunFits(T, st, ops)
    decreases |ops|
  {
    if ops == [] then 0
    else
      StepKeeps(T, st, ops[0]);
      (if ops[0].TickOp? && Admitted(T, st.net, n) != NoChoice then 1 else 0)
      + Admissions(T, Step(T, st, ops[0]), ops[1..], n)
  }

  /** Some tick of the run admits a packet from link `k` at node `n`. */
  ghost predicate Served(T: Topology, st: State, ops: seq<Op>, n: NodeId, k: NodeId)
    requires T.Valid() && Good(T, st) && RunFits(T, st, ops)
    decreases |ops|
  {
    ops != [] && (
      StepKeeps(T, st, ops[0]);
      || (ops[0].TickOp? && Admitted(T, st.net, n).FromLink? && Admitted(T, st.net, n).k == k)
      || Served(T, Step(T, st, ops[0]), ops[1..], n, k))
  }

  /** Sending and receiving touch neither nodes nor links. */
  lemma OnlyPorts(T: Topology, st: State, op: Op)
    requires T.Valid() && Good(T, st) && OpFits(T, st, op) && Wired(T, st.net) && !op.TickOp?
    ensures Step(T, st, op).net.nodes == st.net.nodes && Step(T, st, op).net.edges == st.net.edges
  {
    hide Inv, Topology.Valid, Wired, SendOutcome, CanRecv;
  }

  lemma {:induction false} PassedOver(T: Topology, st: State, ops: seq<Op>, n: NodeId, j: nat)
    requires T.Valid() && Good(T, st) && RunFits(T, st, ops) && Waiting(T, st.net, n, j)
    requires !Served(T, st, ops, n, T.Rxs(n)[j])
    ensures Admissions(T, st, ops, n) <= Gap(T, st.net, n, j)
    decreases |ops|
  {
    hide Inv, Topology.Valid, Step, Tick, Occupied, Admitted, Forward;
    TickCloser(T, st.hist, st.net, n, j);
    if ops != [] {
      StepKeeps(T, st, ops[0]);
      if ops[0].TickOp? {
        TickStep(T, st);
      } else {
        OnlyPorts(T, st, ops[0]);
      }
      PassedOver(T, Step(T, st, ops[0]), ops[1..], n, j);
    }
  }

  lemma TickStep(T: Topology, st: State)
    requires T.Valid() && Wired(T, st.net)
    ensures Step(T, st, TickOp) == st.(net := Tick(T, st.net))
  {
  }

  /**
   The round-robin bound. Whatever else happens in a run, a link of node `n` at whose end a packet waits is served
   before the node has admitted `|Rxs(n)|` packets in all; lower channels and other links cannot starve it.
   */
  lemma ServedInTurn(T: Topology, st: State, ops: seq<Op>, n: NodeId, j: nat)
    requires T.Valid() && Good(T, st) && RunFits(T, st, ops) && j < |T.Rxs(n)| && Waiting(T, st.net, n, j)
    requires Admissions(T, st, ops, n) >= |T.Rxs(n)|
    ensures Served(T, st, ops, n, T.Rxs(n)[j])
  {
    hide Inv, Topology.Valid, Waiting, Admissions, Served, Gap;
    if !Served(T, st, ops, n, T.Rxs(n)[j]) {
      PassedOver(T, st, ops, n, j);
      LessThanARound(T, st, n, j);
      assert false;
    }
  }

  lemma LessThanARound(T: Topology, st: State, n: NodeId, j: nat)
    requires j < |T.Rxs(n)|
    ensures Gap(T, st.net, n, j) < |T.Rxs(n)|
  {
  }
}
