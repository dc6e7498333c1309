/** While packets are in transit and admissions have room, every tick moves something; so the bus drains. */
module NocProgress {
  import opened Arith
  import opened Wrappers
  import opened RouteTable
  import opened NocState
  import opened NocInvariant
  import opened NocNodeStep
  import opened NocFlow
  import opened NocHistory
  import opened NocReassembly
  import opened NocSystem
  import opened NocTick
  import opened NocEndpoints
  import opened NocConservation
  import opened NocDrain

  // ----- Arbitration finds something to admit whenever there is something -----

  lemma {:induction false} FirstFullFinds(slots: Slots, c: nat, d: nat)
    requires c <= d < |slots| && slots[d].Some?
    ensures FirstFull(slots, c).Some? && c <= FirstFull(slots, c).value <= d
    ensures FirstFull(slots, c).value < |slots| && slots[FirstFull(slots, c).value].Some?
    decreases |slots| - c
  {
    if slots[c].None? {
      FirstFullFinds(slots, c + 1, d);
    }
  }

  lemma {:induction false} LowestFull(slots: Slots, c: nat)
    ensures FirstFull(slots, c).Some? ==>
              var d := FirstFull(slots, c).value;
              c <= d < |slots| && slots[d].Some? && forall i :: c <= i < d ==> slots[i].None?
    decreases |slots| - c
  {
    if c < |slots| {
      LowestFull(slots, c + 1);
    }
  }

  lemma {:induction false} FirstQueuedFinds(queues: seq<seq<Packet>>, c: nat, d: nat)
    requires c <= d < |queues| && queues[d] != []
    ensures FirstQueued(queues, c).Some?
    decreases |queues| - c
  {
    if queues[c] == [] {
      FirstQueuedFinds(queues, c + 1, d);
    }
  }

  lemma {:induction false} FirstQueuedSound(queues: seq<seq<Packet>>, c: nat)
    ensures FirstQueued(queues, c).Some? ==>
              FirstQueued(queues, c).value < |queues| && queues[FirstQueued(queues, c).value] != []
    decreases |queues| - c
  {
    if c < |queues| && queues[c] == [] {
      FirstQueuedSound(queues, c + 1);
    }
  }

  /** The distance from `ptr` forward to `j` on a ring of `n` places. */
  function Forward(ptr: nat, j: nat, n: nat): nat
    requires ptr < n && j < n
  {
    if ptr <= j then j - ptr else j + n - ptr
  }

  lemma ForwardStep(ptr: nat, j: nat, n: nat)
    requires ptr < n && j < n && ptr != j
    ensures Inc(ptr, n) < n && Forward(Inc(ptr, n), j, n) == Forward(ptr, j, n) - 1
  {
    if ptr + 1 < n {
      ModSmall(ptr + 1, n);
    } else {
      ModSelf(n);
    }
  }

  lemma ModSmall(a: nat, n: nat)
    requires a < n
    ensures a % n == a
  {
  }

  lemma ModSelf(n: nat)
    requires n > 0
    ensures n % n == 0
  {
  }

  ghost predicate LinksThere(froms: seq<NodeId>, rx: map<NodeId, Slots>) {
    forall i :: 0 <= i < |froms| ==> froms[i] in rx
  }

  /** The round-robin scan finds an occupied link if there is one, and never passes over it. */
  lemma {:induction false} ScanLinksFinds(froms: seq<NodeId>, rx: map<NodeId, Slots>, ptr: nat, tries: nat, j: nat,
                                          d: nat)
    requires LinksThere(froms, rx) && ptr < |froms| && j < |froms| && d < |rx[froms[j]]| && rx[froms[j]][d].Some?
    requires Forward(ptr, j, |froms|) < tries
    ensures var r := ScanLinks(froms, rx, ptr, tries);
            && r.1.FromLink? && r.0 < |froms| && r.1.k == froms[r.0] && r.1.k in rx
            && r.1.c < |rx[r.1.k]| && rx[r.1.k][r.1.c].Some?
            && Forward(r.0, j, |froms|) <= Forward(ptr, j, |froms|)
    decreases tries
  {
    LowestFull(rx[froms[ptr]], 0);
    if FirstFull(rx[froms[ptr]], 0).None? {
      if ptr == j {
        FirstFullFinds(rx[froms[j]], 0, d);
      }
      ForwardStep(ptr, j, |froms|);
      ScanLinksFinds(froms, rx, Inc(ptr, |froms|), tries - 1, j, d);
    }
  }

  lemma {:induction false} ScanLinksSound(froms: seq<NodeId>, rx: map<NodeId, Slots>, ptr: nat, tries: nat)
    ensures var r := ScanLinks(froms, rx, ptr, tries).1;
            r != NoChoice ==> r.FromLink? && r.k in rx && r.c < |rx[r.k]| && rx[r.k][r.c].Some?
    decreases tries
  {
    if !(tries == 0 || ptr >= |froms| || froms[ptr] !in rx) {
      LowestFull(rx[froms[ptr]], 0);
      if FirstFull(rx[froms[ptr]], 0).None? {
        ScanLinksSound(froms, rx, Inc(ptr, |froms|), tries - 1);
      }
    }
  }

  ghost predicate PortsThere(ids: seq<PortId>, ports: map<PortId, Port>) {
    forall i :: 0 <= i < |ids| ==> ids[i] in ports
  }

  lemma {:induction false} ScanPortsFinds(ids: seq<PortId>, ports: map<PortId, Port>, ptr: nat, tries: nat, j: nat,
                                          d: nat)
    requires PortsThere(ids, ports) && ptr < |ids| && j < |ids| && d < |ports[ids[j]].sendBuf|
             && ports[ids[j]].sendBuf[d] != []
    requires Forward(ptr, j, |ids|) < tries
    ensures var r := ScanPorts(ids, ports, ptr, tries).1;
            r.FromPort? && r.q in ports && r.c < |ports[r.q].sendBuf| && ports[r.q].sendBuf[r.c] != []
    decreases tries
  {
    FirstQueuedSound(ports[ids[ptr]].sendBuf, 0);
    if FirstQueued(ports[ids[ptr]].sendBuf, 0).None? {
      if ptr == j {
        FirstQueuedFinds(ports[ids[j]].sendBuf, 0, d);
      }
      ForwardStep(ptr, j, |ids|);
      ScanPortsFinds(ids, ports, Inc(ptr, |ids|), tries - 1, j, d);
    }
  }

  lemma ForwardBound(ptr: nat, j: nat, n: nat)
    requires ptr < n && j < n
    ensures Forward(ptr, j, n) < n
  {
  }

  /** A node with an occupied incoming output or a queued packet finds a candidate. */
  lemma CandidateFound(T: Topology, sent: seq<Message>, n: NodeId, v: View)
    requires T.Valid() && n in T.nodes && ViewOk(T, sent, n, v)
    requires (exists k, c :: k in v.rx && 0 <= c < |v.rx[k]| && v.rx[k][c].Some?)
             || (exists q, c :: q in v.ports && 0 <= c < |v.ports[q].sendBuf| && v.ports[q].sendBuf[c] != [])
    ensures Chosen(v, Arbitrate(T.Rxs(n), T.Attached(n), v).choice).Some?
  {
    hide ViewOk, FirstFull, FirstQueued, Topology.Valid;
    var froms, ids := T.Rxs(n), T.Attached(n);
    NeighboursThere(T, sent, n, v);
    ScanLinksSound(froms, v.rx, v.node.rxPtr, |froms|);
    if exists k, c :: k in v.rx && 0 <= c < |v.rx[k]| && v.rx[k][c].Some? {
      var k, c :| k in v.rx && 0 <= c < |v.rx[k]| && v.rx[k][c].Some?;
      assert k in froms;
      var j :| 0 <= j < |froms| && froms[j] == k;
      ForwardBound(v.node.rxPtr, j, |froms|);
      ScanLinksFinds(froms, v.rx, v.node.rxPtr, |froms|, j, c);
    } else {
      var q, c :| q in v.ports && 0 <= c < |v.ports[q].sendBuf| && v.ports[q].sendBuf[c] != [];
      assert q in ids;
      var j :| 0 <= j < |ids| && ids[j] == q;
      ForwardBound(v.node.sdPtr, j, |ids|);
      ScanPortsFinds(ids, v.ports, v.node.sdPtr, |ids|, j, c);
    }
  }

  lemma NeighboursThere(T: Topology, sent: seq<Message>, n: NodeId, v: View)
    requires T.Valid() && n in T.nodes && ViewOk(T, sent, n, v)
    ensures LinksThere(T.Rxs(n), v.rx) && PortsThere(T.Attached(n), v.ports)
    ensures forall k :: k in v.rx ==> k in T.Rxs(n)
    ensures forall q :: q in v.ports ==> q in T.Attached(n)
    ensures PointerOk(v.node.rxPtr, |T.Rxs(n)|) && PointerOk(v.node.sdPtr, |T.Attached(n)|)
  {
    hide PipeOk, SlotsOk, QueuesOk, Topology.ConfigValid;
    forall i | 0 <= i < |T.Rxs(n)| ensures T.Rxs(n)[i] in v.rx {
      assert T.Rxs(n)[i] in T.Rxs(n);
    }
    forall i | 0 <= i < |T.Attached(n)| ensures T.Attached(n)[i] in v.ports {
      assert T.Attached(n)[i] in T.Attached(n);
    }
  }

  // ----- Room -----

  /** Identities (transfer id, index) of the packets that have not reached their destination node. */
  ghost function Undelivered(T: Topology, sent: seq<Message>, s: Net): set<(nat, nat)>
    requires SentOk(T, sent)
  {
    set x, i | 0 <= x < |sent| && 0 <= i < Count(T, sent[x]) && Arrived(T, sent, s, x) <= i :: (x, i)
  }

  /** Congestion control is off, or no more packets are under way than a single node can buffer. */
  ghost predicate Room(T: Topology, sent: seq<Message>, s: Net)
    requires SentOk(T, sent)
  {
    T.config.congestion.enabled ==> |Undelivered(T, sent, s)| <= T.config.congestion.limit
  }

  lemma TravellerUndelivered(T: Topology, h: History, s: Net, pl: Place, p: Packet)
    requires T.Valid() && Inv(T, h, s) && Travelling(pl) && At(s, pl) == Some(p)
    ensures SentOk(T, h.sent) && (p.xmt, p.idx) in Undelivered(T, h.sent, s)
    ensures Genuine(T, h.sent, p)
  {
    hide Inv, At, Arrived, MakePacket, Topology.Valid;
    InvSent(T, h, s);
    TravellerConsistent(T, h, s, pl, p);
    GenuineFlow(T, h.sent, p);
  }

  /** The identities of the first `k` packets in the pipeline of `n`. */
  ghost function PipeIds(pipe: seq<Piped>, k: nat): set<(nat, nat)>
    requires k <= |pipe|
  {
    set i | 0 <= i < k :: (pipe[i].pack.xmt, pipe[i].pack.idx)
  }

  lemma {:induction false} PipeIdsCount(T: Topology, h: History, s: Net, n: NodeId, k: nat)
    requires T.Valid() && Inv(T, h, s) && n in s.nodes && k <= |s.nodes[n].pipeline|
    ensures |PipeIds(s.nodes[n].pipeline, k)| == k
    decreases k
  {
    hide Inv, Topology.Valid;
    var pipe := s.nodes[n].pipeline;
    if k > 0 {
      PipeIdsCount(T, h, s, n, k - 1);
      var id := (pipe[k - 1].pack.xmt, pipe[k - 1].pack.idx);
      if id in PipeIds(pipe, k - 1) {
        var i :| 0 <= i < k - 1 && id == (pipe[i].pack.xmt, pipe[i].pack.idx);
        SamePlace(T, h, s, Piping(n, i), Piping(n, k - 1), pipe[i].pack, pipe[k - 1].pack);
      }
      assert PipeIds(pipe, k) == PipeIds(pipe, k - 1) + {id};
    }
  }

  lemma SamePlace(T: Topology, h: History, s: Net, pl: Place, pl': Place, p: Packet, p': Packet)
    requires T.Valid() && Inv(T, h, s) && Travelling(pl) && Travelling(pl')
    requires At(s, pl) == Some(p) && At(s, pl') == Some(p') && p.xmt == p'.xmt && p.idx == p'.idx
    ensures pl == pl'
  {
    hide Inv, At, Topology.Valid;
    TravellerUndelivered(T, h, s, pl, p);
    TravellerUndelivered(T, h, s, pl', p');
    OneTravellingPlace(T, h, s, pl, pl', p);
  }

  /** A node that is offered a packet has room for it. */
  lemma HasRoom(T: Topology, h: History, s: Net, n: NodeId, pl: Place, p: Packet)
    requires T.Valid() && Inv(T, h, s) && SentOk(T, h.sent) && Room(T, h.sent, s) && n in s.nodes
    requires Travelling(pl) && !pl.Piping? && At(s, pl) == Some(p)
    ensures Accepts(T, n, s.nodes[n].buffered, p)
  {
    hide Inv, At, Topology.Valid, Undelivered, Arrived, Genuine;
    if T.config.congestion.enabled {
      var pipe := s.nodes[n].pipeline;
      var ids := PipeIds(pipe, |pipe|);
      PipeIdsCount(T, h, s, n, |pipe|);
      TravellerUndelivered(T, h, s, pl, p);
      forall id | id in ids ensures id in Undelivered(T, h.sent, s) && id != (p.xmt, p.idx) {
        var i :| 0 <= i < |pipe| && id == (pipe[i].pack.xmt, pipe[i].pack.idx);
        PipePlaceAt(s, n, i);
        TravellerUndelivered(T, h, s, Piping(n, i), pipe[i].pack);
        if id == (p.xmt, p.idx) {
          SamePlace(T, h, s, Piping(n, i), pl, pipe[i].pack, p);
        }
      }
      CardinalityOfSubset(ids + {(p.xmt, p.idx)}, Undelivered(T, h.sent, s));
      CounterIs(T, h, s, n);
    }
  }

  lemma PipePlaceAt(s: Net, n: NodeId, i: nat)
    requires n in s.nodes && i < |s.nodes[n].pipeline|
    ensures At(s, Piping(n, i)) == Some(s.nodes[n].pipeline[i].pack)
  {
  }

  // ----- Something moves -----

  lemma ChosenPlace(T: Topology, s: Net, n: NodeId, choice: Choice) returns (pl: Place)
    requires n in s.nodes && Chosen(GetView(T, s, n), choice).Some?
    ensures Travelling(pl) && !pl.Piping? && At(s, pl) == Chosen(GetView(T, s, n), choice)
  {
    hide GetView;
    ViewBack(T, s, n);
    match choice
    case FromLink(k, c) => pl := OnOutput((k, n), c);
    case FromPort(q, c) => pl := Queued(q, c, 0);
  }

  /** Node `n` is offered a packet: by the output of a link into it, or by one of its ports. */
  predicate Offered(T: Topology, s: Net, n: NodeId, pl: Place) {
    match pl
    case Queued(q, _, _) => T.NodeOf(q) == n
    case OnOutput(l, _) => l.1 == n
    case _ => false
  }

  /** A node that is offered a packet admits one. */
  lemma OfferedAdmits(T: Topology, h: History, s: Net, n: NodeId, pl: Place, p: Packet)
    requires T.Valid() && Inv(T, h, s) && SentOk(T, h.sent) && Room(T, h.sent, s)
    requires Offered(T, s, n, pl) && At(s, pl) == Some(p)
    ensures n in s.nodes && EnteringAt(T, s, n).Some?
  {
    hide Inv, Topology.Valid, Arbitrate, Undelivered, Room, PlacesOk, ViewOk;
    InvPlaces(T, h, s);
    OfferIsSeen(T, h.sent, s, n, pl, p);
    ViewIsOk(T, h.sent, s, n);
    var v := GetView(T, s, n);
    CandidateFound(T, h.sent, n, v);
    var choice := Arbitrate(T.Rxs(n), T.Attached(n), v).choice;
    var from := ChosenPlace(T, s, n, choice);
    HasRoom(T, h, s, n, from, Chosen(v, choice).value);
    ViewNode(T, s, n);
  }

  lemma OfferIsSeen(T: Topology, sent: seq<Message>, s: Net, n: NodeId, pl: Place, p: Packet)
    requires T.Valid() && PlacesOk(T, sent, s) && Offered(T, s, n, pl) && At(s, pl) == Some(p)
    ensures n in s.nodes
    ensures var v := GetView(T, s, n);
            || (exists k, c :: k in v.rx && 0 <= c < |v.rx[k]| && v.rx[k][c].Some?)
            || (exists q, c :: q in v.ports && 0 <= c < |v.ports[q].sendBuf| && v.ports[q].sendBuf[c] != [])
  {
    hide NodesOk, EdgesOk, PortsOk, Topology.Valid;
    match pl
    case Queued(q, c, i) =>
      ViewPort(T, s, q);
      var v := GetView(T, s, n);
      assert q in v.ports && 0 <= c < |v.ports[q].sendBuf| && v.ports[q].sendBuf[c] != [];
    case OnOutput(l, c) =>
      assert s.edges[l] == s.edges[l];
      ViewLink(T, s, l);
      var v := GetView(T, s, n);
      assert l.0 in v.rx && 0 <= c < |v.rx[l.0]| && v.rx[l.0][c].Some?;
  }

  lemma {:induction false} AdmitsOnRoute(T: Topology, s: Net, f: Flow, o: NodeId, n: NodeId)
    requires OnPath(T, o, n, Target(T, f)) && o != n && Admits(T, s, f, n)
    ensures ProgressAhead(T, s, f, o)
    decreases T.Dist(o, Target(T, f))
  {
    hide Admits, HeadMoves;
    Closer(T, o, Target(T, f));
    if T.Next(o, Target(T, f)) != n {
      AdmitsOnRoute(T, s, f, T.Next(o, Target(T, f)), n);
    }
  }

  /** A node that admits a packet is progress for the packet's flow. */
  lemma AdmissionIsProgress(T: Topology, sent: seq<Message>, s: Net, n: NodeId)
    requires T.Valid() && PlacesOk(T, sent, s) && n in s.nodes && EnteringAt(T, s, n).Some?
    ensures var p := EnteringAt(T, s, n).value; Genuine(T, sent, p) && FlowProgress(T, s, FlowOf(p))
  {
    hide PlacesOk, GetView, Entering, OnPath, ViewOk, LinkProgress, ProgressAhead, Topology.Valid;
    assert n in T.nodes by { WiredNodes(T, sent, s); }
    ViewIsOk(T, sent, s, n);
    EnteringOk(T, sent, n, GetView(T, s, n));
    var p := EnteringAt(T, s, n).value;
    GenuineFlow(T, sent, p);
    if Origin(T, FlowOf(p)) != n {
      AdmitsOnRoute(T, s, FlowOf(p), Origin(T, FlowOf(p)), n);
    }
  }

  lemma {:induction false} HeadOnRoute(T: Topology, s: Net, f: Flow, o: NodeId, n: NodeId)
    requires OnPath(T, o, n, Target(T, f)) && n != Target(T, f) && T.Reaches(n, Target(T, f)) && HeadMoves(T, s, f, n)
    ensures ProgressAhead(T, s, f, o)
    decreases T.Dist(o, Target(T, f))
  {
    hide Admits, HeadMoves;
    if o != n {
      Closer(T, o, Target(T, f));
      HeadOnRoute(T, s, f, T.Next(o, Target(T, f)), n);
    }
  }

  lemma {:induction false} LinkOnRoute(T: Topology, s: Net, f: Flow, o: NodeId, n: NodeId)
    requires OnPath(T, o, n, Target(T, f)) && n != Target(T, f) && T.Reaches(n, Target(T, f)) && LinkMoves(T, s, f, n)
    ensures LinkProgress(T, s, f, o)
    decreases T.Dist(o, Target(T, f))
  {
    hide LinkMoves;
    if o != n {
      Closer(T, o, Target(T, f));
      LinkOnRoute(T, s, f, T.Next(o, Target(T, f)), n);
    }
  }

  /** A link with a movable packet moves one: the first it considers always fits. */
  lemma {:induction false} TransferMovesOne(linkWidth: nat, e: Edge, c: nat, d: nat) returns (m: nat)
    requires linkWidth > 0 && c <= d < |e.input| == |e.output| && e.input[d].Some? && e.output[d].None?
    ensures m < |e.input| && e.input[m].Some? && |Transfer(linkWidth, e, c, 0).input| == |e.input|
    ensures Transfer(linkWidth, e, c, 0).input[m].None?
    decreases |e.input| - c
  {
    TransferMoves(linkWidth, e, c, 0);
    if e.input[c].Some? && e.output[c].None? {
      m := c;
      var sum := (0 + |e.input[c].value.data|) % WORD32;
      TransferMoves(linkWidth, Edge(e.input[c := None], e.output[c := e.input[c]]), c + 1, sum);
    } else {
      m := TransferMovesOne(linkWidth, e, c + 1, d);
    }
  }

  /** After the node phase a packet on an input is still there, and a free output is still free. */
  lemma InputStays(T: Topology, sent: seq<Message>, s: Net, l: Link, c: nat)
    requires T.Valid() && PlacesOk(T, sent, s) && l in s.edges && c < T.Channels()
    requires Slot(s.edges[l].input, c).Some? && Slot(s.edges[l].output, c).None?
    ensures l in NodePhase(T, s).edges
    ensures Slot(NodePhase(T, s).edges[l].input, c).Some? && Slot(NodePhase(T, s).edges[l].output, c).None?
  {
    hide NodePhase, PlacesOk, GetView, Release, PipeIn, RxOut, Topology.Valid;
    assert l.0 in s.nodes && l.1 in s.nodes && |s.edges[l].input| == |s.edges[l].output|
                                            == T.Channels() by { LinkEnds(T, sent, s, l); }
    ViewLink(T, s, l);
    SenderAfter(T, sent, s, l.0, l.1);
    ReceiverAfter(T, sent, s, l.0, l.1);
    NodePhaseKeys(T, s);
    ReleaseFills(T, l.0, PipeIn(T, l.0, GetView(T, s, l.0)), GetView(T, s, l.0).tx);
    RxOutClears(T, l.1, GetView(T, s, l.1), l.0, c);
  }

  lemma LinkEnds(T: Topology, sent: seq<Message>, s: Net, l: Link)
    requires PlacesOk(T, sent, s) && l in s.edges
    ensures l.0 in s.nodes && l.1 in s.nodes && |s.edges[l].input| == |s.edges[l].output| == T.Channels()
            && EdgeOk(T, sent, l, s.edges[l])
  {
    hide NodesOk, PortsOk, RightPlace;
    assert EdgeOk(T, sent, l, s.edges[l]);
  }

  lemma RxOutClears(T: Topology, n: NodeId, v: View, k: NodeId, c: nat)
    requires k in v.rx && c < |v.rx[k]| && v.rx[k][c].None?
    ensures k in RxOut(T, n, v) && Slot(RxOut(T, n, v)[k], c).None?
  {
    hide Arbitrate;
  }

  lemma InputMoves(T: Topology, h: History, s: Net, l: Link, c: nat) returns (mover: Packet)
    requires T.Valid() && Inv(T, h, s) && At(s, OnInput(l, c)).Some? && At(s, OnOutput(l, c)).None?
    ensures Genuine(T, h.sent, mover) && FlowProgress(T, s, FlowOf(mover))
  {
    hide Inv, NodePhase, PlacesOk, NodeProgress, Topology.WiringValid, RightPlace, OnPath, Transfer;
    InvPlaces(T, h, s);
    LinkEnds(T, h.sent, s, l);
    InputStays(T, h.sent, s, l, c);
    var s1 := NodePhase(T, s);
    NodePhasePlaces(T, h.sent, s);
    LinkEnds(T, h.sent, s1, l);
    var e := s1.edges[l];
    var m := TransferMovesOne(T.config.linkWidth, e, 0, c);
    mover := e.input[m].value;
    assert RightPlace(T, h.sent, l.0, mover) && mover.cha == m && T.Next(l.0, mover.tgt) == l.1;
    NodePhaseKeys(T, s);
    WiredNodes(T, h.sent, s);
    StageRoute(T, h.sent, l.0, mover);
    RightPlaceFlow(T, h.sent, l.0, mover);
    LinkOnRoute(T, s1, FlowOf(mover), Origin(T, FlowOf(mover)), l.0);
  }

  lemma PipeMoves(T: Topology, h: History, s: Net, n: NodeId)
    requires T.Valid() && Inv(T, h, s) && n in s.nodes && s.nodes[n].pipeline != []
    ensures var e := s.nodes[n].pipeline[0];
            || (Genuine(T, h.sent, e.pack) && FlowProgress(T, s, FlowOf(e.pack)))
            || At(s, OnInput((n, T.Next(n, e.pack.tgt)), e.pack.cha)).Some?
  {
    hide Inv, PlacesOk, GetView, Topology.Valid, RightPlace, FlowProgress, OnPath, Entering, HeadMoves, At, Slot;
    InvPlaces(T, h, s);
    var e, v := s.nodes[n].pipeline[0], GetView(T, s, n);
    PipePlaceAt(s, n, 0);
    TravellerStage(T, h.sent, s, Piping(n, 0), e.pack);
    if e.remain > 0 || Leaves(T, n, e, v.tx) {
      HeadMovesFlow(T, h.sent, s, n);
    } else {
      BlockedInput(T, h.sent, s, n);
    }
  }

  lemma HeadMovesFlow(T: Topology, sent: seq<Message>, s: Net, n: NodeId)
    requires T.Valid() && PlacesOk(T, sent, s) && n in s.nodes && s.nodes[n].pipeline != []
    requires var e := s.nodes[n].pipeline[0];
             RightPlace(T, sent, n, e.pack) && (e.remain > 0 || Leaves(T, n, e, GetView(T, s, n).tx))
    ensures var e := s.nodes[n].pipeline[0]; Genuine(T, sent, e.pack) && FlowProgress(T, s, FlowOf(e.pack))
  {
    hide PlacesOk, GetView, Topology.Valid, RightPlace, LinkProgress, Admits, ProgressAhead, OnPath, Entering, Leaves;
    var e := s.nodes[n].pipeline[0];
    var f := FlowOf(e.pack);
    WiredNodes(T, sent, s);
    StageRoute(T, sent, n, e.pack);
    RightPlaceFlow(T, sent, n, e.pack);
    ViewNode(T, s, n);
    HeadOnRoute(T, s, f, Origin(T, f), n);
  }

  lemma BlockedInput(T: Topology, sent: seq<Message>, s: Net, n: NodeId)
    requires T.Valid() && PlacesOk(T, sent, s) && n in s.nodes && s.nodes[n].pipeline != []
    requires var e := s.nodes[n].pipeline[0];
             RightPlace(T, sent, n, e.pack) && e.remain == 0 && !Leaves(T, n, e, GetView(T, s, n).tx)
    ensures var e := s.nodes[n].pipeline[0]; At(s, OnInput((n, T.Next(n, e.pack.tgt)), e.pack.cha)).Some?
  {
    hide PlacesOk, GetView, Topology.Valid, RightPlace, OnPath;
    var e, v := s.nodes[n].pipeline[0], GetView(T, s, n);
    var m := T.Next(n, e.pack.tgt);
    WiredNodes(T, sent, s);
    PacketTarget(T, sent, n, e.pack);
    Hop(T, n, e.pack.tgt);
    LinkThere(T, sent, s, n, m);
    LinkEnds(T, sent, s, (n, m));
    ViewLink(T, s, (n, m));
  }

  lemma PacketTarget(T: Topology, sent: seq<Message>, n: NodeId, p: Packet)
    requires T.Valid() && RightPlace(T, sent, n, p)
    ensures p.tgt in T.nodes && p.tgt != n && p.cha < T.Channels()
  {
    hide OnPath;
  }

  /** As long as a packet is on its way, some flow makes progress in the next tick. */
  lemma SomethingMoves(T: Topology, h: History, s: Net, pl: Place, p: Packet) returns (mover: Packet)
    requires T.Valid() && Inv(T, h, s) && SentOk(T, h.sent) && Room(T, h.sent, s) && Travelling(pl)
             && At(s, pl) == Some(p)
    ensures Genuine(T, h.sent, mover) && FlowProgress(T, s, FlowOf(mover))
  {
    hide Inv, FlowProgress, Genuine, Topology.Valid, Room, EnteringAt;
    match pl
    case Queued(q, c, i) =>
      mover := OfferMoves(T, h, s, T.NodeOf(q), pl, p);
    case OnOutput(l, c) =>
      mover := OfferMoves(T, h, s, l.1, pl, p);
    case OnInput(l, c) =>
      mover := LinkOrOfferMoves(T, h, s, l, c);
    case Piping(n, i) =>
      PipeMoves(T, h, s, n);
      var e := s.nodes[n].pipeline[0];
      if Genuine(T, h.sent, e.pack) && FlowProgress(T, s, FlowOf(e.pack)) {
        mover := e.pack;
      } else {
        mover := LinkOrOfferMoves(T, h, s, (n, T.Next(n, e.pack.tgt)), e.pack.cha);
      }
  }

  lemma OfferMoves(T: Topology, h: History, s: Net, n: NodeId, pl: Place, p: Packet) returns (mover: Packet)
    requires T.Valid() && Inv(T, h, s) && SentOk(T, h.sent) && Room(T, h.sent, s) && Offered(T, s, n, pl)
             && At(s, pl) == Some(p)
    ensures Genuine(T, h.sent, mover) && FlowProgress(T, s, FlowOf(mover))
  {
    hide Inv, FlowProgress, Genuine, Topology.Valid, Room, EnteringAt, Offered, At, PlacesOk;
    InvPlaces(T, h, s);
    OfferedAdmits(T, h, s, n, pl, p);
    AdmissionIsProgress(T, h.sent, s, n);
    mover := EnteringAt(T, s, n).value;
  }

  lemma LinkOrOfferMoves(T: Topology, h: History, s: Net, l: Link, c: nat) returns (mover: Packet)
    requires T.Valid() && Inv(T, h, s) && SentOk(T, h.sent) && Room(T, h.sent, s) && At(s, OnInput(l, c)).Some?
    ensures Genuine(T, h.sent, mover) && FlowProgress(T, s, FlowOf(mover))
  {
    hide Inv, FlowProgress, Genuine, Topology.Valid, Room;
    if At(s, OnOutput(l, c)).Some? {
      mover := OfferMoves(T, h, s, l.1, OnOutput(l, c), At(s, OnOutput(l, c)).value);
    } else {
      mover := InputMoves(T, h, s, l, c);
    }
  }

  // ----- The theorem -----

  /** One of the first `n` messages belongs to a flow that makes progress. */
  ghost predicate ProgressBelow(T: Topology, sent: seq<Message>, s: Net, n: nat)
    requires n <= |sent|
  {
    exists x :: 0 <= x < n && FlowProgress(T, s, MessageFlow(sent[x]))
  }

  lemma {:induction false} MeasureTick(T: Topology, h: History, s: Net, n: nat)
    requires T.Valid() && Inv(T, h, s) && n <= |h.sent|
    ensures Measure(T, h.sent, Tick(T, s), n) <= Measure(T, h.sent, s, n)
    ensures ProgressBelow(T, h.sent, s, n) ==> Measure(T, h.sent, Tick(T, s), n) < Measure(T, h.sent, s, n)
    decreases n
  {
    hide Inv, Tick, FlowWeight, FlowProgress, Topology.Valid, PlacesOk;
    if n > 0 {
      MeasureTick(T, h, s, n - 1);
      InvPlaces(T, h, s);
      SentFlow(T, h, s, n - 1);
      FlowWeightTick(T, h.sent, s, MessageFlow(h.sent[n - 1]));
    }
  }

  lemma SentFlow(T: Topology, h: History, s: Net, x: nat)
    requires Inv(T, h, s) && x < |h.sent|
    ensures MessageOk(T, h.sent[x]) && FlowOk(T, MessageFlow(h.sent[x]))
  {
    InvSent(T, h, s);
    MessageFlowOk(T, h.sent[x]);
  }

  /** While a packet is undelivered and there is room, every tick strictly lowers the measure. */
  lemma TickLowersMeasure(T: Topology, h: History, s: Net)
    requires T.Valid() && Inv(T, h, s) && SentOk(T, h.sent) && Room(T, h.sent, s) && Undelivered(T, h.sent, s) != {}
    ensures Measure(T, h.sent, Tick(T, s), |h.sent|) < Measure(T, h.sent, s, |h.sent|)
  {
    hide Inv, Tick, FlowProgress, Topology.Valid, Room, Measure, At, Arrived, MakePacket;
    var id :| id in Undelivered(T, h.sent, s);
    var (x, i) := id;
    UnarrivedInTransit(T, h, s, x, i);
    var p := MakePacket(T, h.sent[x], x, i);
    var pl := TransitPlace(T, s, MessageFlow(h.sent[x]), p);
    var mover := SomethingMoves(T, h, s, pl, p);
    GenuineFlow(T, h.sent, mover);
    assert FlowProgress(T, s, MessageFlow(h.sent[mover.xmt]));
    MeasureTick(T, h, s, |h.sent|);
  }

  /** Packets only ever leave the set of undelivered packets during a tick, so room stays. */
  lemma UndeliveredShrinks(T: Topology, h: History, s: Net)
    requires T.Valid() && Inv(T, h, s) && SentOk(T, h.sent)
    ensures Undelivered(T, h.sent, Tick(T, s)) <= Undelivered(T, h.sent, s)
    ensures Room(T, h.sent, s) ==> Room(T, h.sent, Tick(T, s))
  {
    hide Tick, Arrived, DeliveredAt, Topology.Valid, PlacesOk, FlowsOk, ListsOk, BuffersOk, AllDone, CountersOk,
      CreditOk, ArrivedSeq;
    forall x, i | (x, i) in Undelivered(T, h.sent, Tick(T, s)) ensures (x, i) in Undelivered(T, h.sent, s) {
      TickArrived(T, h.sent, s, x);
    }
    CardinalityOfSubset(Undelivered(T, h.sent, Tick(T, s)), Undelivered(T, h.sent, s));
  }

  ghost function Ticks(T: Topology, s: Net, n: nat): Net
    decreases n
  {
    if n == 0 then s else Ticks(T, Tick(T, s), n - 1)
  }

  /**
   Drain: if nothing more is sent and there is room, then after at most as many ticks as the measure says
   every accepted message has been received or is ready to be received.
   */
  lemma {:induction false} Drains(T: Topology, h: History, s: Net) returns (n: nat)
    requires T.Valid() && Inv(T, h, s) && SentOk(T, h.sent) && Room(T, h.sent, s)
    ensures n <= Measure(T, h.sent, s, |h.sent|)
    ensures Inv(T, h, Ticks(T, s, n)) && Undelivered(T, h.sent, Ticks(T, s, n)) == {}
    ensures forall x :: 0 <= x < |h.sent| && x !in h.received ==>
                          x in ReadyIds(RecvAt(Ticks(T, s, n), h.sent[x].dst, h.sent[x].cha))
    decreases Measure(T, h.sent, s, |h.sent|)
  {
    hide Inv, Tick, Topology.Valid, Room, Measure, Undelivered, ReadyIds, RecvAt;
    if Undelivered(T, h.sent, s) == {} {
      n := 0;
      forall x | 0 <= x < |h.sent| && x !in h.received ensures x in ReadyIds(RecvAt(s, h.sent[x].dst, h.sent[x].cha)) {
        DeliveredIsReady(T, h, s, x);
      }
    } else {
      TickLowersMeasure(T, h, s);
      TickInv(T, h, s);
      UndeliveredShrinks(T, h, s);
      n := Drains(T, h, Tick(T, s));
      n := n + 1;
    }
  }

  /** A message all of whose packets have arrived is ready, unless it has been received. */
  lemma DeliveredIsReady(T: Topology, h: History, s: Net, x: nat)
    requires T.Valid() && Inv(T, h, s) && SentOk(T, h.sent) && x < |h.sent| && x !in h.received
    requires Undelivered(T, h.sent, s) == {}
    ensures x in ReadyIds(RecvAt(s, h.sent[x].dst, h.sent[x].cha))
  {
    hide PlacesOk, FlowsOk, ListsOk, BuffersOk, CountersOk, CreditOk, Arrived, OfIds, ReadyIds, RecvAt, Topology.Valid,
      Undelivered;
    if Arrived(T, h.sent, s, x) < Count(T, h.sent[x]) {
      NextUndelivered(T, h.sent, s, x);
    }
    ArrivedWhole(T, h, s, x);
  }

  lemma NextUndelivered(T: Topology, sent: seq<Message>, s: Net, x: nat)
    requires SentOk(T, sent) && x < |sent| && Arrived(T, sent, s, x) < Count(T, sent[x])
    ensures (x, Arrived(T, sent, s, x)) in Undelivered(T, sent, s)
  {
    hide Arrived;
  }

  lemma ArrivedWhole(T: Topology, h: History, s: Net, x: nat)
    requires Inv(T, h, s) && SentOk(T, h.sent) && x < |h.sent| && x !in h.received
    requires Arrived(T, h.sent, s, x) >= Count(T, h.sent[x])
    ensures x in ReadyIds(RecvAt(s, h.sent[x].dst, h.sent[x].cha))
  {
    hide PlacesOk, FlowsOk, ListsOk, BuffersOk, CountersOk, CreditOk, Arrived, OfIds, ReadyIds, RecvAt;
    var f, arr := MessageFlow(h.sent[x]), ArrivedSeq(T, h.sent, s);
    MessageFlowOk(T, h.sent[x]);
    assert DoneOk(T, h, arr, ReadyIds(RecvAt(s, f.dst, f.cha)), f);
    assert Complete(T, h.sent, arr, f, x);
    OfIdsMember(h.sent, h.received, f, x);
    OfIdsMember(h.sent, ReadyIds(RecvAt(s, f.dst, f.cha)), f, x);
  }
}
