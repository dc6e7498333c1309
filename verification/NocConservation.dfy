/** Conservation: every accepted and not yet received packet is in exactly one place. */
module NocConservation {
  import opened Wrappers
  import opened RouteTable
  import opened NocState
  import opened NocInvariant
  import opened NocHistory
  import opened NocReassembly
  import opened NocSystem
  import opened NocEndpoints

  /** Everywhere a packet can be. */
  datatype Place =
    | Queued(q: PortId, c: nat, i: nat)
    | Piping(n: NodeId, i: nat)
    | OnInput(l: Link, c: nat)
    | OnOutput(l: Link, c: nat)
    | Ordering(n: NodeId, x: nat, i: nat)
    | Waiting(q: PortId, c: nat, i: nat)

  function Nth(packs: seq<Packet>, i: nat): Option<Packet> { if i < |packs| then Some(packs[i]) else None }

  function At(s: Net, pl: Place): Option<Packet> {
    match pl
    case Queued(q, c, i) => Nth(QueueAt(s, q, c), i)
    case Piping(n, i) => if i < |PipeAt(s, n)| then Some(PipeAt(s, n)[i].pack) else None
    case OnInput(l, c) => Slot(EdgeAt(s, l).input, c)
    case OnOutput(l, c) => Slot(EdgeAt(s, l).output, c)
    case Ordering(n, x, i) => if n in s.nodes then Nth(Collected(s.nodes[n].orderBuf, x), i) else None
    case Waiting(q, c, i) => Nth(RecvAt(s, q, c), i)
  }

  /** The places of packets on their way. */
  predicate Travelling(pl: Place) { pl.Queued? || pl.Piping? || pl.OnInput? || pl.OnOutput? }

  // ----- Counting a packet along its route -----

  function Copies(packs: seq<Packet>, p: Packet): nat { multiset(packs)[p] }

  lemma CopiesConcat(a: seq<Packet>, b: seq<Packet>, p: Packet)
    ensures Copies(a + b, p) == Copies(a, p) + Copies(b, p)
  {
  }

  lemma CopiesIn(a: seq<Packet>, p: Packet)
    ensures p in a <==> Copies(a, p) >= 1
  {
  }

  /** A sequence without repetition holds no packet twice. */
  lemma {:induction false} CopiesDistinct(a: seq<Packet>, p: Packet)
    requires forall i, j :: 0 <= i < j < |a| ==> a[i] != a[j]
    ensures Copies(a, p) <= 1
  {
    if a != [] {
      CopiesDistinct(a[1..], p);
      assert a == [a[0]] + a[1..];
      if a[0] == p {
        assert p !in a[1..];
      }
    }
  }

  lemma {:induction false} PipeCopies(pipe: seq<Piped>, i: nat, p: Packet)
    requires i < |pipe| && pipe[i].pack == p
    ensures Copies(OfPipe(pipe, FlowOf(p)), p) >= 1
  {
    CopiesConcat(Only(pipe[0].pack, FlowOf(p)), OfPipe(pipe[1..], FlowOf(p)), p);
    if i > 0 {
      PipeCopies(pipe[1..], i - 1, p);
    }
  }

  lemma {:induction false} PipeCopiesTwice(pipe: seq<Piped>, i: nat, j: nat, p: Packet)
    requires i < j < |pipe| && pipe[i].pack == p == pipe[j].pack
    ensures Copies(OfPipe(pipe, FlowOf(p)), p) >= 2
  {
    CopiesConcat(Only(pipe[0].pack, FlowOf(p)), OfPipe(pipe[1..], FlowOf(p)), p);
    if i > 0 {
      PipeCopiesTwice(pipe[1..], i - 1, j - 1, p);
    } else {
      PipeCopies(pipe[1..], j - 1, p);
    }
  }

  lemma {:induction false} QueueCopies(queue: seq<Packet>, i: nat, p: Packet)
    requires i < |queue| && queue[i] == p
    ensures Copies(OfQueue(queue, FlowOf(p)), p) >= 1
  {
    CopiesConcat(Only(queue[0], FlowOf(p)), OfQueue(queue[1..], FlowOf(p)), p);
    if i > 0 {
      QueueCopies(queue[1..], i - 1, p);
    }
  }

  lemma SegmentCopies(e: Edge, pipe: seq<Piped>, p: Packet)
    ensures Copies(Segment(e, pipe, FlowOf(p)), p)
         == Copies(OfSlot(Slot(e.output, p.cha), FlowOf(p)), p) + Copies(OfSlot(Slot(e.input, p.cha), FlowOf(p)), p)
            + Copies(OfPipe(pipe, FlowOf(p)), p)
  {
    var f := FlowOf(p);
    CopiesConcat(OfSlot(Slot(e.output, f.cha), f), OfSlot(Slot(e.input, f.cha), f) + OfPipe(pipe, f), p);
    CopiesConcat(OfSlot(Slot(e.input, f.cha), f), OfPipe(pipe, f), p);
  }

  lemma SlotCopies(o: Option<Packet>, p: Packet)
    requires o == Some(p)
    ensures Copies(OfSlot(o, FlowOf(p)), p) == 1
  {
    assert OfSlot(o, FlowOf(p)) == [p];
  }

  /** The share of node `k` in the route towards `t`. */
  function ShareOf(T: Topology, s: Net, f: Flow, k: NodeId): seq<Packet> {
    Segment(EdgeAt(s, (k, T.Next(k, Target(T, f)))), PipeAt(s, k), f)
  }

  lemma {:induction false} AheadCopies(T: Topology, s: Net, f: Flow, n: NodeId, k: NodeId, p: Packet)
    requires OnPath(T, n, k, Target(T, f)) && k != Target(T, f) && T.Reaches(k, Target(T, f))
    ensures Copies(Ahead(T, s, f, n), p) >= Copies(ShareOf(T, s, f, k), p)
    decreases T.Dist(n, Target(T, f))
  {
    hide Segment, Copies;
    var t := Target(T, f);
    if n != t && T.Reaches(n, t) {
      Closer(T, n, t);
      CopiesConcat(Ahead(T, s, f, T.Next(n, t)), ShareOf(T, s, f, n), p);
      if n != k {
        AheadCopies(T, s, f, T.Next(n, t), k, p);
      }
    }
  }

  lemma {:induction false} AheadCopiesTwo(T: Topology, s: Net, f: Flow, n: NodeId, j: NodeId, k: NodeId, p: Packet)
    requires OnPath(T, n, j, Target(T, f)) && j != Target(T, f) && T.Reaches(j, Target(T, f))
    requires OnPath(T, n, k, Target(T, f)) && k != Target(T, f) && T.Reaches(k, Target(T, f)) && j != k
    ensures Copies(Ahead(T, s, f, n), p) >= Copies(ShareOf(T, s, f, j), p) + Copies(ShareOf(T, s, f, k), p)
    decreases T.Dist(n, Target(T, f))
  {
    hide Segment, Copies;
    var t := Target(T, f);
    if n != t && T.Reaches(n, t) {
      Closer(T, n, t);
      CopiesConcat(Ahead(T, s, f, T.Next(n, t)), ShareOf(T, s, f, n), p);
      if n == j {
        AheadCopies(T, s, f, T.Next(n, t), k, p);
      } else if n == k {
        AheadCopies(T, s, f, T.Next(n, t), j, p);
      } else {
        AheadCopiesTwo(T, s, f, T.Next(n, t), j, k, p);
      }
    }
  }

  /** No packet is in transit twice. */
  lemma TransitOnce(T: Topology, sent: seq<Message>, s: Net, f: Flow, p: Packet)
    requires SentOk(T, sent) && InOrder(T, sent, s, f)
    ensures Copies(Ahead(T, s, f, Origin(T, f)), p) + Copies(OfQueue(QueueAt(s, f.src, f.cha), f), p) <= 1
    ensures p in Transit(T, s, f) ==>
              Genuine(T, sent, p) && FlowOf(p) == f && Offset(T, sent, p.xmt) + p.idx >= Arrivals(T, sent, s, f)
  {
    hide Ahead, OfQueue, FlowPackets, MakePacket, MessageOk, Offset;
    var all, a := FlowPackets(T, sent, f), Arrivals(T, sent, s, f);
    forall j | 0 <= j < |all| ensures Genuine(T, sent, all[j]) && FlowOf(all[j]) == f
                                      && j == Offset(T, sent, all[j].xmt) + all[j].idx {
      PacketPosition(T, sent, f, j);
    }
    var transit := Transit(T, s, f);
    assert forall j :: 0 <= j < |transit| ==> transit[j] == all[a + j];
    CopiesDistinct(transit, p);
    CopiesConcat(Ahead(T, s, f, Origin(T, f)), OfQueue(QueueAt(s, f.src, f.cha), f), p);
  }

  // ----- Travelling packets -----

  /** The node whose pipeline or outgoing link the place belongs to. */
  function Stage(pl: Place): NodeId
    requires Travelling(pl) && !pl.Queued?
  {
    match pl
    case Piping(n, _) => n
    case OnInput(l, _) => l.0
    case OnOutput(l, _) => l.0
  }

  /**
   A packet on a link or in a pipeline is on its own route, short of its target, in the place its route prescribes.
   */
  lemma TravellerStage(T: Topology, sent: seq<Message>, s: Net, pl: Place, p: Packet)
    requires T.Valid() && PlacesOk(T, sent, s) && Travelling(pl) && !pl.Queued? && At(s, pl) == Some(p)
    ensures Stage(pl) in s.nodes && RightPlace(T, sent, Stage(pl), p)
    ensures !pl.Piping? ==> pl.l == (Stage(pl), T.Next(Stage(pl), p.tgt)) && pl.c == p.cha
  {
    hide RightPlace, QueuesOk, Topology.Valid;
    match pl
    case Piping(n, i) => assert NodeOk(T, sent, n, s.nodes[n]) && StaysOk(T, sent, n, s.nodes[n].pipeline[i]);
    case OnInput(l, c) => assert EdgeOk(T, sent, l, s.edges[l]);
    case OnOutput(l, c) => assert EdgeOk(T, sent, l, s.edges[l]);
  }

  lemma GenuineFlow(T: Topology, sent: seq<Message>, p: Packet)
    requires Genuine(T, sent, p)
    ensures FlowOk(T, FlowOf(p)) && Target(T, FlowOf(p)) == p.tgt && Origin(T, FlowOf(p)) == T.NodeOf(p.src)
    ensures p.xmt < |sent| && MessageOk(T, sent[p.xmt]) && MessageFlow(sent[p.xmt]) == FlowOf(p)
            && p.idx < Count(T, sent[p.xmt])
  {
  }

  lemma StageRoute(T: Topology, sent: seq<Message>, n: NodeId, p: Packet)
    requires T.Valid() && n in T.nodes && RightPlace(T, sent, n, p)
    ensures var f := FlowOf(p);
            OnPath(T, Origin(T, f), n, Target(T, f)) && n != Target(T, f) && T.Reaches(n, Target(T, f))
  {
    hide OnPath;
    GenuineFlow(T, sent, p);
    NextReaches(T, n, p.tgt);
  }

  lemma TravellerCopies(T: Topology, sent: seq<Message>, s: Net, pl: Place, p: Packet)
    requires T.Valid() && PlacesOk(T, sent, s) && Travelling(pl) && !pl.Queued? && At(s, pl) == Some(p)
    ensures Copies(ShareOf(T, s, FlowOf(p), Stage(pl)), p) >= 1
  {
    hide PlacesOk, RightPlace, OfPipe, Copies, OfSlot, Slot, Topology.Valid;
    TravellerStage(T, sent, s, pl, p);
    var n, f := Stage(pl), FlowOf(p);
    var e := EdgeAt(s, (n, T.Next(n, Target(T, f))));
    assert Target(T, f) == p.tgt by { RightPlaceFlow(T, sent, n, p); }
    SegmentCopies(e, PipeAt(s, n), p);
    match pl
    case Piping(_, i) => PipeCopies(PipeAt(s, n), i, p);
    case OnInput(_, _) => SlotCopies(Slot(e.input, p.cha), p);
    case OnOutput(_, _) => SlotCopies(Slot(e.output, p.cha), p);
  }

  lemma RightPlaceFlow(T: Topology, sent: seq<Message>, n: NodeId, p: Packet)
    requires RightPlace(T, sent, n, p)
    ensures Genuine(T, sent, p) && Target(T, FlowOf(p)) == p.tgt
  {
    GenuineFlow(T, sent, p);
  }

  /** Two different places of one node never hold the same packet. */
  lemma TravellerTwice(T: Topology, sent: seq<Message>, s: Net, pl: Place, pl': Place, p: Packet)
    requires T.Valid() && PlacesOk(T, sent, s) && pl != pl'
    requires Travelling(pl) && !pl.Queued? && At(s, pl) == Some(p)
    requires Travelling(pl') && !pl'.Queued? && At(s, pl') == Some(p) && Stage(pl) == Stage(pl')
    ensures Copies(ShareOf(T, s, FlowOf(p), Stage(pl)), p) >= 2
  {
    hide PlacesOk, RightPlace, OfPipe, Copies, OfSlot, Slot, Topology.Valid;
    TravellerStage(T, sent, s, pl, p);
    TravellerStage(T, sent, s, pl', p);
    var n, f := Stage(pl), FlowOf(p);
    RightPlaceFlow(T, sent, n, p);
    var e := EdgeAt(s, (n, T.Next(n, Target(T, f))));
    SegmentCopies(e, PipeAt(s, n), p);
    if pl.Piping? && pl'.Piping? {
      if pl.i < pl'.i { PipeCopiesTwice(PipeAt(s, n), pl.i, pl'.i, p); }
      else { PipeCopiesTwice(PipeAt(s, n), pl'.i, pl.i, p); }
    } else {
      if pl.Piping? { PipeCopies(PipeAt(s, n), pl.i, p); }
      if pl'.Piping? { PipeCopies(PipeAt(s, n), pl'.i, p); }
      if pl.OnInput? || pl'.OnInput? { SlotCopies(Slot(e.input, p.cha), p); }
      if pl.OnOutput? || pl'.OnOutput? { SlotCopies(Slot(e.output, p.cha), p); }
    }
  }

  lemma QueuedOk(T: Topology, sent: seq<Message>, s: Net, q: PortId, c: nat, i: nat, p: Packet)
    requires PlacesOk(T, sent, s) && At(s, Queued(q, c, i)) == Some(p)
    ensures Genuine(T, sent, p) && p.src == q && p.cha == c
    ensures QueueAt(s, q, c) != [] && p.idx == QueueAt(s, q, c)[0].idx + i && p.xmt == QueueAt(s, q, c)[0].xmt
  {
    hide NodesOk, EdgesOk, PacketCount, Chunk;
    assert QueuesOk(T, sent, q, s.ports[q]) && QueueOk(T, sent, q, c, s.ports[q].sendBuf[c]);
    var first := s.ports[q].sendBuf[c][0];
    var all := Packetize(T, sent[first.xmt], first.xmt);
    assert p == all[first.idx..][i] == all[first.idx + i];
  }

  /** No packet travels in two places at once. */
  lemma OneTravellingPlace(T: Topology, h: History, s: Net, pl: Place, pl': Place, p: Packet)
    requires T.Valid() && Inv(T, h, s)
    requires Travelling(pl) && At(s, pl) == Some(p) && Travelling(pl') && At(s, pl') == Some(p)
    ensures pl == pl'
  {
    hide PlacesOk, ListsOk, BuffersOk, AllDone, CountersOk, CreditOk, ArrivedSeq, RightPlace, Ahead, OfQueue, OnPath,
      Copies, At, Topology.Valid;
    var f := FlowOf(p);
    TravellerInFlow(T, h.sent, s, pl, p);
    TravellerInFlow(T, h.sent, s, pl', p);
    assert InOrder(T, h.sent, s, f);
    TransitOnce(T, h.sent, s, f, p);
    if pl != pl' {
      if pl.Queued? && pl'.Queued? {
        QueuedOk(T, h.sent, s, pl.q, pl.c, pl.i, p);
        QueuedOk(T, h.sent, s, pl'.q, pl'.c, pl'.i, p);
      } else if !pl.Queued? && !pl'.Queued? {
        if Stage(pl) == Stage(pl') {
          TravellerTwice(T, h.sent, s, pl, pl', p);
          AheadCopies(T, s, f, Origin(T, f), Stage(pl), p);
        } else {
          AheadCopiesTwo(T, s, f, Origin(T, f), Stage(pl), Stage(pl'), p);
        }
      }
    }
  }

  /** Where a travelling packet is counted in its flow's transit. */
  lemma TravellerInFlow(T: Topology, sent: seq<Message>, s: Net, pl: Place, p: Packet)
    requires T.Valid() && PlacesOk(T, sent, s) && Travelling(pl) && At(s, pl) == Some(p)
    ensures Genuine(T, sent, p) && FlowOk(T, FlowOf(p))
    ensures pl.Queued? ==> Copies(OfQueue(QueueAt(s, p.src, p.cha), FlowOf(p)), p) >= 1
    ensures !pl.Queued? ==>
              var f := FlowOf(p);
              && Copies(ShareOf(T, s, f, Stage(pl)), p) >= 1
              && Copies(Ahead(T, s, f, Origin(T, f)), p) >= 1
              && OnPath(T, Origin(T, f), Stage(pl), Target(T, f)) && Stage(pl) != Target(T, f)
              && T.Reaches(Stage(pl), Target(T, f))
    ensures p in Transit(T, s, FlowOf(p))
  {
    hide NodesOk, EdgesOk, PortsOk, RightPlace, Ahead, OfQueue, OnPath, Topology.Valid, Copies, ShareOf;
    var f := FlowOf(p);
    if pl.Queued? {
      QueuedOk(T, sent, s, pl.q, pl.c, pl.i, p);
      QueueCopies(QueueAt(s, pl.q, pl.c), pl.i, p);
      CopiesIn(OfQueue(QueueAt(s, p.src, p.cha), f), p);
    } else {
      TravellerStage(T, sent, s, pl, p);
      StageRoute(T, sent, Stage(pl), p);
      RightPlaceFlow(T, sent, Stage(pl), p);
      TravellerCopies(T, sent, s, pl, p);
      AheadCopies(T, s, f, Origin(T, f), Stage(pl), p);
      CopiesIn(Ahead(T, s, f, Origin(T, f)), p);
    }
    GenuineFlow(T, sent, p);
  }

  // ----- Packets that have arrived -----

  /** How far a packet has come, told by its place. */
  ghost predicate Consistent(T: Topology, h: History, s: Net, pl: Place, p: Packet)
    requires SentOk(T, h.sent) && p.xmt < |h.sent|
  {
    var arr := Arrived(T, h.sent, s, p.xmt);
    match pl
    case Ordering(n, x, i) => n == p.tgt && x == p.xmt && i == p.idx && p.idx < arr < Count(T, h.sent[p.xmt])
    case Waiting(q, c, _) => q == p.dst && c == p.cha && arr == Count(T, h.sent[p.xmt])
                             && p.xmt in ReadyIds(RecvAt(s, q, c))
    case _ => p.idx >= arr
  }

  lemma {:induction false} WaitingId(T: Topology, sent: seq<Message>, q: PortId, c: nat, buf: seq<Packet>, i: nat)
    requires Whole(T, sent, q, c, buf) && i < |buf|
    ensures Genuine(T, sent, buf[i]) && buf[i].dst == q && buf[i].cha == c && buf[i].xmt in ReadyIds(buf)
    decreases |buf|
  {
    var k := buf[0].cnt;
    if i < k {
      assert buf[i] == buf[..k][i];
    } else {
      WaitingId(T, sent, q, c, buf[k..], i - k);
    }
  }

  lemma TravellerConsistent(T: Topology, h: History, s: Net, pl: Place, p: Packet)
    requires T.Valid() && Inv(T, h, s) && Travelling(pl) && At(s, pl) == Some(p)
    ensures Genuine(T, h.sent, p) && Consistent(T, h, s, pl, p)
  {
    hide PlacesOk, ListsOk, BuffersOk, AllDone, CountersOk, CreditOk, Ahead, OfQueue, At, Topology.Valid, Arrivals,
      Offset, Transit;
    TravellerInFlow(T, h.sent, s, pl, p);
    GenuineFlow(T, h.sent, p);
    assert InOrder(T, h.sent, s, FlowOf(p));
    TransitOnce(T, h.sent, s, FlowOf(p), p);
  }

  lemma ListedConsistent(T: Topology, h: History, s: Net, n: NodeId, x: nat, i: nat, p: Packet)
    requires Inv(T, h, s) && At(s, Ordering(n, x, i)) == Some(p)
    ensures Genuine(T, h.sent, p) && Consistent(T, h, s, Ordering(n, x, i), p)
  {
    hide PlacesOk, FlowsOk, BuffersOk, AllDone, CountersOk, CreditOk, ArrivedOf, Arrivals, PacketCount, Chunk;
    var arr := ArrivedSeq(T, h.sent, s);
    assert OrderOk(T, h.sent, arr, n, s.nodes[n].orderBuf);
    assert Partial(T, h.sent, arr, n, x);
    assert p == Packetize(T, h.sent[x], x)[i];
  }

  lemma WaitingConsistent(T: Topology, h: History, s: Net, q: PortId, c: nat, i: nat, p: Packet)
    requires Inv(T, h, s) && At(s, Waiting(q, c, i)) == Some(p) && c < T.Channels()
    ensures Genuine(T, h.sent, p) && Consistent(T, h, s, Waiting(q, c, i), p)
  {
    hide PlacesOk, FlowsOk, ListsOk, CountersOk, CreditOk, ArrivedOf, Arrivals, Whole, ReadyIds, OfIds;
    var buf := RecvAt(s, q, c);
    assert Whole(T, h.sent, q, c, buf);
    WaitingId(T, h.sent, q, c, buf, i);
    GenuineFlow(T, h.sent, p);
    var f := FlowOf(p);
    assert DoneOk(T, h, ArrivedSeq(T, h.sent, s), ReadyIds(buf), f);
    OfIdsMember(h.sent, ReadyIds(buf), f, p.xmt);
    assert p.xmt in DoneIds(h, ReadyIds(buf), f);
  }

  /** The same, wherever the packet is. */
  lemma PlaceConsistent(T: Topology, h: History, s: Net, pl: Place, p: Packet)
    requires T.Valid() && Inv(T, h, s) && At(s, pl) == Some(p)
    ensures Genuine(T, h.sent, p) && Consistent(T, h, s, pl, p)
  {
    hide Inv, Consistent, Genuine, Topology.Valid;
    if Travelling(pl) {
      TravellerConsistent(T, h, s, pl, p);
    } else if pl.Ordering? {
      ListedConsistent(T, h, s, pl.n, pl.x, pl.i, p);
    } else {
      RecvChannels(T, h, s, pl.q, pl.c, pl.i);
      WaitingConsistent(T, h, s, pl.q, pl.c, pl.i, p);
    }
  }

  lemma RecvChannels(T: Topology, h: History, s: Net, q: PortId, c: nat, i: nat)
    requires Inv(T, h, s) && At(s, Waiting(q, c, i)).Some?
    ensures c < T.Channels()
  {
    hide NodesOk, EdgesOk, FlowsOk, ListsOk, BuffersOk, AllDone, CountersOk, CreditOk, ArrivedSeq;
    assert QueuesOk(T, h.sent, q, s.ports[q]);
  }

  // ----- Waiting messages are all different -----

  lemma IdsDistinct(h: History, ids: seq<nat>, f: Flow, i: nat, j: nat)
    requires Increasing(DoneIds(h, ids, f)) && i < j < |ids| && ids[i] < |h.sent| && MessageFlow(h.sent[ids[i]]) == f
    ensures ids[i] != ids[j]
  {
    if ids[i] == ids[j] {
      var x := ids[i];
      assert ids == ids[..j] + ids[j..] && ids[..j][i] == x && ids[j..][0] == x;
      OfIdsConcat(h.sent, ids[..j], ids[j..], f);
      OfIdsMember(h.sent, ids[..j], f, x);
      OfIdsMember(h.sent, ids[j..], f, x);
      var a, b := OfIds(h.sent, ids[..j], f), OfIds(h.sent, ids[j..], f);
      assert DoneIds(h, ids, f) == (OfIds(h.sent, h.received, f) + a) + b;
      RepeatedId(OfIds(h.sent, h.received, f) + a, b, x);
    }
  }

  lemma {:induction false} OneWaitingIndex(T: Topology, sent: seq<Message>, q: PortId, c: nat, buf: seq<Packet>, i: nat,
                                           j: nat)
    requires Whole(T, sent, q, c, buf) && i < j < |buf|
    requires forall a, b :: 0 <= a < b < |ReadyIds(buf)| ==> ReadyIds(buf)[a] != ReadyIds(buf)[b]
    ensures buf[i] != buf[j]
    decreases |buf|
  {
    hide ReadyIds, Whole, Packetize, Genuine;
    var k := buf[0].cnt;
    FrontWhole(T, sent, q, c, buf);
    var ids, rest := ReadyIds(buf), ReadyIds(buf[k..]);
    assert forall a :: 0 <= a < |rest| ==> rest[a] == ids[a + 1];
    if i < k {
      FrontIndex(T, sent, q, c, buf, i);
    }
    if k <= i {
      OneWaitingIndex(T, sent, q, c, buf[k..], i - k, j - k);
    } else if k <= j {
      WaitingId(T, sent, q, c, buf[k..], j - k);
      var a :| 0 <= a < |rest| && rest[a] == buf[k..][j - k].xmt;
      assert ids[0] != ids[a + 1];
    } else {
      FrontIndex(T, sent, q, c, buf, j);
    }
  }

  lemma FrontIndex(T: Topology, sent: seq<Message>, q: PortId, c: nat, buf: seq<Packet>, i: nat)
    requires Whole(T, sent, q, c, buf) && buf != [] && i < buf[0].cnt
    ensures i < |buf| && buf[i].idx == i && buf[i].xmt == buf[0].xmt
  {
    hide PacketCount, Chunk;
    assert buf[i] == buf[..buf[0].cnt][i];
  }

  lemma WaitingIdsDistinct(T: Topology, h: History, s: Net, q: PortId, c: nat)
    requires Inv(T, h, s) && q in s.ports && c < T.Channels()
    ensures var ids := ReadyIds(RecvAt(s, q, c)); forall a, b :: 0 <= a < b < |ids| ==> ids[a] != ids[b]
  {
    hide PlacesOk, FlowsOk, ListsOk, CountersOk, CreditOk, ArrivedSeq, Whole, ReadyIds, RecvAt, Complete, DoneIds;
    var buf := RecvAt(s, q, c);
    var ids := ReadyIds(buf);
    assert Whole(T, h.sent, q, c, buf);
    ReadyBelongs(T, h.sent, q, c, buf);
    forall a, b | 0 <= a < b < |ids| ensures ids[a] != ids[b] {
      assert ids[a] in ids;
      var f := MessageFlow(h.sent[ids[a]]);
      MessageFlowOk(T, h.sent[ids[a]]);
      assert DoneOk(T, h, ArrivedSeq(T, h.sent, s), ids, f);
      IdsDistinct(h, ids, f, a, b);
    }
  }

  // ----- Conservation -----

  /** Two places never hold the same packet, and whatever a place holds is an accepted packet not yet received. */
  lemma AtMostOnePlace(T: Topology, h: History, s: Net, pl: Place, pl': Place, p: Packet)
    requires T.Valid() && Inv(T, h, s) && At(s, pl) == Some(p) && At(s, pl') == Some(p)
    ensures pl == pl' && Genuine(T, h.sent, p) && p.xmt !in h.received
  {
    hide Inv, Genuine, Topology.Valid, ReadyIds, At, ArrivedSeq;
    PlaceConsistent(T, h, s, pl, p);
    PlaceConsistent(T, h, s, pl', p);
    GenuineFlow(T, h.sent, p);
    StillOut(T, h, s, pl, p);
    if Travelling(pl) && Travelling(pl') {
      OneTravellingPlace(T, h, s, pl, pl', p);
    } else if pl.Waiting? && pl'.Waiting? {
      OneWaitingPlace(T, h, s, pl.q, pl.c, pl.i, pl'.i, p);
    }
  }

  lemma OneWaitingPlace(T: Topology, h: History, s: Net, q: PortId, c: nat, i: nat, j: nat, p: Packet)
    requires Inv(T, h, s) && At(s, Waiting(q, c, i)) == Some(p) && At(s, Waiting(q, c, j)) == Some(p)
    ensures i == j
  {
    hide Inv, ReadyIds, Whole;
    RecvChannels(T, h, s, q, c, i);
    WaitingIdsDistinct(T, h, s, q, c);
    BufferWhole(T, h, s, q, c);
    if i < j {
      OneWaitingIndex(T, h.sent, q, c, RecvAt(s, q, c), i, j);
    } else if j < i {
      OneWaitingIndex(T, h.sent, q, c, RecvAt(s, q, c), j, i);
    }
  }

  lemma BufferWhole(T: Topology, h: History, s: Net, q: PortId, c: nat)
    requires Inv(T, h, s) && q in s.ports && c < T.Channels()
    ensures Whole(T, h.sent, q, c, RecvAt(s, q, c))
  {
    hide PlacesOk, FlowsOk, ListsOk, CountersOk, CreditOk, ArrivedSeq, AllDone, Whole, RecvAt;
  }

  lemma ReceivedIsComplete(T: Topology, h: History, s: Net, x: nat)
    requires Inv(T, h, s) && x in h.received && x < |h.sent|
    ensures Arrived(T, h.sent, s, x) == Count(T, h.sent[x])
  {
    hide PlacesOk, FlowsOk, ListsOk, BuffersOk, CountersOk, CreditOk, ReadyIds, RecvAt, OfIds, Arrived, Topology.Valid;
    var f, arr := MessageFlow(h.sent[x]), ArrivedSeq(T, h.sent, s);
    MessageFlowOk(T, h.sent[x]);
    var ready := ReadyIds(RecvAt(s, f.dst, f.cha));
    assert DoneOk(T, h, arr, ready, f);
    OfIdsMember(h.sent, h.received, f, x);
    assert x in DoneIds(h, ready, f);
  }

  /** A message with a packet in some place has not been received. */
  lemma StillOut(T: Topology, h: History, s: Net, pl: Place, p: Packet)
    requires Inv(T, h, s) && Genuine(T, h.sent, p) && Consistent(T, h, s, pl, p)
    ensures p.xmt !in h.received
  {
    hide PlacesOk, FlowsOk, ListsOk, BuffersOk, CountersOk, CreditOk, ReadyIds, RecvAt, Arrived, Topology.Valid,
      MakePacket, ArrivedSeq, DoneIds, Complete;
    GenuineFlow(T, h.sent, p);
    if pl.Waiting? {
      var f := FlowOf(p);
      assert DoneOk(T, h, ArrivedSeq(T, h.sent, s), ReadyIds(RecvAt(s, f.dst, f.cha)), f);
      OnceDone(h, ReadyIds(RecvAt(s, f.dst, f.cha)), f, p.xmt);
    } else if p.xmt in h.received {
      ReceivedIsComplete(T, h, s, p.xmt);
    }
  }

  // ----- Nothing is lost -----

  lemma {:induction false} PipePlace(pipe: seq<Piped>, f: Flow, p: Packet) returns (i: nat)
    requires p in OfPipe(pipe, f)
    ensures i < |pipe| && pipe[i].pack == p
  {
    if p in Only(pipe[0].pack, f) {
      i := 0;
    } else {
      i := PipePlace(pipe[1..], f, p);
      i := i + 1;
    }
  }

  lemma {:induction false} QueuePlace(queue: seq<Packet>, f: Flow, p: Packet) returns (i: nat)
    requires p in OfQueue(queue, f)
    ensures i < |queue| && queue[i] == p
  {
    if p in Only(queue[0], f) {
      i := 0;
    } else {
      i := QueuePlace(queue[1..], f, p);
      i := i + 1;
    }
  }

  lemma {:induction false} AheadPlace(T: Topology, s: Net, f: Flow, n: NodeId, p: Packet) returns (pl: Place)
    requires p in Ahead(T, s, f, n)
    ensures Travelling(pl) && At(s, pl) == Some(p)
    decreases T.Dist(n, Target(T, f))
  {
    hide OfPipe;
    var t := Target(T, f);
    Closer(T, n, t);
    var m := T.Next(n, t);
    var e := EdgeAt(s, (n, m));
    if p in Ahead(T, s, f, m) {
      pl := AheadPlace(T, s, f, m, p);
    } else if p in OfSlot(Slot(e.output, f.cha), f) {
      pl := OnOutput((n, m), f.cha);
    } else if p in OfSlot(Slot(e.input, f.cha), f) {
      pl := OnInput((n, m), f.cha);
    } else {
      var i := PipePlace(PipeAt(s, n), f, p);
      pl := Piping(n, i);
    }
  }

  lemma TransitPlace(T: Topology, s: Net, f: Flow, p: Packet) returns (pl: Place)
    requires p in Transit(T, s, f)
    ensures Travelling(pl) && At(s, pl) == Some(p)
  {
    hide Ahead, OfQueue;
    if p in Ahead(T, s, f, Origin(T, f)) {
      pl := AheadPlace(T, s, f, Origin(T, f), p);
    } else {
      var i := QueuePlace(QueueAt(s, f.src, f.cha), f, p);
      pl := Queued(f.src, f.cha, i);
    }
  }

  /** A packet that has not arrived is in transit. */
  lemma UnarrivedInTransit(T: Topology, h: History, s: Net, x: nat, i: nat)
    requires T.Valid() && Inv(T, h, s) && x < |h.sent| && Arrived(T, h.sent, s, x) <= i < Count(T, h.sent[x])
    ensures MakePacket(T, h.sent[x], x, i) in Transit(T, s, MessageFlow(h.sent[x]))
  {
    hide PlacesOk, ListsOk, BuffersOk, AllDone, CountersOk, CreditOk, ArrivedSeq, Topology.Valid, FlowPackets, Chunk,
      PacketCount, Transit;
    var f := MessageFlow(h.sent[x]);
    MessageFlowOk(T, h.sent[x]);
    assert InOrder(T, h.sent, s, f);
    PacketsAtOffset(T, h.sent, x);
    var all, o, a := FlowPackets(T, h.sent, f), Offset(T, h.sent, x), Arrivals(T, h.sent, s, f);
    assert all[o..o + Count(T, h.sent[x])][i] == all[o + i];
    assert all[a..][o + i - a] == all[o + i];
  }

  lemma {:induction false} WaitingPlace(T: Topology, sent: seq<Message>, q: PortId, c: nat, buf: seq<Packet>, x: nat,
                                        i: nat) returns (k: nat)
    requires Whole(T, sent, q, c, buf) && x in ReadyIds(buf)
    requires x < |sent| && MessageOk(T, sent[x]) && i < Count(T, sent[x])
    ensures k < |buf| && buf[k] == MakePacket(T, sent[x], x, i)
    decreases |buf|
  {
    hide Chunk, PacketCount;
    FrontWhole(T, sent, q, c, buf);
    if x == buf[0].xmt {
      k := i;
      assert buf[..buf[0].cnt][i] == Packetize(T, sent[x], x)[i];
    } else {
      k := WaitingPlace(T, sent, q, c, buf[buf[0].cnt..], x, i);
      k := k + buf[0].cnt;
    }
  }

  /** Every packet of an accepted and not yet received message is in some place. */
  lemma AtLeastOnePlace(T: Topology, h: History, s: Net, x: nat, i: nat) returns (pl: Place)
    requires T.Valid() && Inv(T, h, s) && x < |h.sent| && x !in h.received && i < Count(T, h.sent[x])
    ensures At(s, pl) == Some(MakePacket(T, h.sent[x], x, i))
  {
    hide PlacesOk, FlowsOk, ListsOk, BuffersOk, AllDone, CountersOk, CreditOk, ArrivedSeq, At, Topology.Valid, Arrived,
      MakePacket;
    var arr, f := Arrived(T, h.sent, s, x), MessageFlow(h.sent[x]);
    if arr <= i {
      UnarrivedInTransit(T, h, s, x, i);
      pl := TransitPlace(T, s, f, MakePacket(T, h.sent[x], x, i));
    } else if arr < Count(T, h.sent[x]) {
      pl := Ordering(T.NodeOf(f.dst), x, i);
      ListedPlace(T, h, s, x, i);
    } else {
      pl := CompletedPlace(T, h, s, x, i);
    }
  }

  lemma ListedPlace(T: Topology, h: History, s: Net, x: nat, i: nat)
    requires T.Valid() && Inv(T, h, s) && x < |h.sent| && i < Arrived(T, h.sent, s, x) < Count(T, h.sent[x])
    ensures At(s, Ordering(T.NodeOf(h.sent[x].dst), x, i)) == Some(MakePacket(T, h.sent[x], x, i))
  {
    hide FlowsOk, BuffersOk, AllDone, CountersOk, CreditOk, Arrived, Chunk, PacketCount, OrderOk, Packetize, PlacesOk,
      Topology.Valid;
    var n := T.NodeOf(h.sent[x].dst);
    DestinationNode(T, h, s, x);
    assert OrderOk(T, h.sent, ArrivedSeq(T, h.sent, s), n, s.nodes[n].orderBuf);
    ListIs(T, h.sent, ArrivedSeq(T, h.sent, s), n, s.nodes[n].orderBuf, x, i);
  }

  lemma DestinationNode(T: Topology, h: History, s: Net, x: nat)
    requires T.Valid() && Inv(T, h, s) && x < |h.sent|
    ensures T.NodeOf(h.sent[x].dst) in s.nodes
  {
    hide FlowsOk, BuffersOk, AllDone, CountersOk, CreditOk, ArrivedSeq, ListsOk, NodesOk, EdgesOk, PortsOk, PacketCount;
  }

  lemma ListIs(T: Topology, sent: seq<Message>, arr: seq<nat>, n: NodeId, orderBuf: OrderBuf, x: nat, i: nat)
    requires CountsOk(T, sent, arr) && OrderOk(T, sent, arr, n, orderBuf) && x < |sent| && T.NodeOf(sent[x].dst) == n
    requires i < arr[x] < Count(T, sent[x])
    ensures Nth(Collected(orderBuf, x), i) == Some(MakePacket(T, sent[x], x, i))
  {
    hide Chunk, PacketCount;
    assert Partial(T, sent, arr, n, x);
  }

  lemma CompletedPlace(T: Topology, h: History, s: Net, x: nat, i: nat) returns (pl: Place)
    requires T.Valid() && Inv(T, h, s) && x < |h.sent| && x !in h.received && i < Count(T, h.sent[x])
    requires Arrived(T, h.sent, s, x) == Count(T, h.sent[x])
    ensures pl.Waiting? && At(s, pl) == Some(MakePacket(T, h.sent[x], x, i))
  {
    hide PlacesOk, FlowsOk, ListsOk, CountersOk, CreditOk, Arrived, OfIds, Whole, ReadyIds, RecvAt, MakePacket,
      Topology.Valid;
    var f, arr := MessageFlow(h.sent[x]), ArrivedSeq(T, h.sent, s);
    MessageFlowOk(T, h.sent[x]);
    var buf := RecvAt(s, f.dst, f.cha);
    assert DoneOk(T, h, arr, ReadyIds(buf), f);
    assert Complete(T, h.sent, arr, f, x);
    OfIdsMember(h.sent, h.received, f, x);
    OfIdsMember(h.sent, ReadyIds(buf), f, x);
    FlowPort(T, h, s, f);
    var k := WaitingPlace(T, h.sent, f.dst, f.cha, buf, x, i);
    pl := Waiting(f.dst, f.cha, k);
  }

  lemma FlowPort(T: Topology, h: History, s: Net, f: Flow)
    requires Inv(T, h, s) && FlowOk(T, f)
    ensures f.dst in s.ports && f.src in s.ports && Whole(T, h.sent, f.dst, f.cha, RecvAt(s, f.dst, f.cha))
  {
    hide FlowsOk, ListsOk, CountersOk, CreditOk, ArrivedSeq, AllDone, Whole, RecvAt, NodesOk, EdgesOk, PortsOk;
  }

  ghost predicate Placed(s: Net, p: Packet) {
    exists pl :: At(s, pl) == Some(p)
  }

  /**
   Conservation: every packet of every accepted message that has not been received is in exactly one place,
   and the places hold nothing else.
   */
  lemma ExactlyOnePlace(T: Topology, h: History, s: Net)
    requires T.Valid() && Inv(T, h, s)
    ensures forall x, i :: 0 <= x < |h.sent| && 0 <= i < Count(T, h.sent[x]) && x !in h.received ==>
                             Placed(s, MakePacket(T, h.sent[x], x, i))
    ensures forall pl, pl' :: At(s, pl).Some? && At(s, pl) == At(s, pl') ==> pl == pl'
    ensures forall pl :: At(s, pl).Some? ==> Genuine(T, h.sent, At(s, pl).value) && At(s, pl).value.xmt !in h.received
  {
    hide Inv, At, Genuine, MakePacket, Topology.Valid;
    InvSent(T, h, s);
    forall x, i | 0 <= x < |h.sent| && 0 <= i < Count(T, h.sent[x]) && x !in h.received
      ensures Placed(s, MakePacket(T, h.sent[x], x, i))
    {
      var pl := AtLeastOnePlace(T, h, s, x, i);
    }
    forall pl, pl' | At(s, pl).Some? && At(s, pl) == At(s, pl') ensures pl == pl' {
      AtMostOnePlace(T, h, s, pl, pl', At(s, pl).value);
    }
    forall pl | At(s, pl).Some? ensures Genuine(T, h.sent, At(s, pl).value) && At(s, pl).value.xmt !in h.received {
      AtMostOnePlace(T, h, s, pl, pl, At(s, pl).value);
    }
  }

  lemma InvSent(T: Topology, h: History, s: Net)
    requires Inv(T, h, s)
    ensures SentOk(T, h.sent)
  {
  }
}
