/**
 A message that has the network to itself travels at full speed: with congestion
 control off it becomes receivable exactly when the lower bound of `NocTiming` allows.
 */
module NocExact {
  import opened Wrappers
  import opened RouteTable
  import opened NocState
  import opened NocInvariant
  import opened NocNodeStep
  import opened NocFlow
  import opened NocSystem
  import opened NocTick
  import opened NocConservation
  import opened NocProgress
  import opened NocTiming

  // ----- The state of a lone message -----

  /** Everything in the pipeline of `n` belongs to message `x` and is exactly on time. */
  ghost predicate PipePunctual(T: Topology, n: NodeId, pipe: seq<Piped>, x: nat, now: int) {
    forall i :: 0 <= i < |pipe| ==> pipe[i].pack.xmt == x && PipeStamp(T, n, pipe[i]) == now
  }

  ghost predicate SlotsPunctual(T: Topology, k: NodeId, slots: Slots, x: nat, now: int) {
    forall c :: 0 <= c < |slots| && slots[c].Some? ==> slots[c].value.xmt == x && LinkStamp(T, k, slots[c].value) == now
  }

  predicate SlotsEmpty(slots: Slots) {
    forall c :: 0 <= c < |slots| ==> slots[c].None?
  }

  ghost predicate LinkPunctual(T: Topology, k: NodeId, e: Edge, x: nat, now: int) {
    SlotsEmpty(e.input) && SlotsPunctual(T, k, e.output, x, now)
  }

  predicate QueuePunctual(queue: seq<Packet>, x: nat, now: int) {
    queue != [] ==> queue[0].xmt == x && QueueStamp(queue[0]) == now
  }

  predicate PortPunctual(port: Port, x: nat, now: int) {
    forall c :: 0 <= c < |port.sendBuf| ==> QueuePunctual(port.sendBuf[c], x, now)
  }

  /** Only packets of message `x` are on their way, and each is as far as it can be. */
  ghost predicate Punctual(T: Topology, s: Net, x: nat) {
    && (forall n {:trigger s.nodes[n]} :: n in s.nodes ==> PipePunctual(T, n, s.nodes[n].pipeline, x, s.tick))
    && (forall l {:trigger s.edges[l]} :: l in s.edges ==> LinkPunctual(T, l.0, s.edges[l], x, s.tick))
    && (forall q {:trigger s.ports[q]} :: q in s.ports ==> PortPunctual(s.ports[q], x, s.tick))
  }

  ghost predicate ViewPunctual(T: Topology, n: NodeId, v: View, x: nat, now: int) {
    && PipePunctual(T, n, v.node.pipeline, x, now)
    && (forall k :: k in v.rx ==> SlotsPunctual(T, k, v.rx[k], x, now))
    && (forall m :: m in v.tx ==> SlotsEmpty(v.tx[m]))
    && (forall q :: q in v.ports ==> PortPunctual(v.ports[q], x, now))
  }

  lemma ViewIsPunctual(T: Topology, s: Net, n: NodeId, x: nat)
    requires Punctual(T, s, x) && n in s.nodes
    ensures ViewPunctual(T, n, GetView(T, s, n), x, s.tick)
  {
    hide GetView, PipePunctual, SlotsPunctual, SlotsEmpty, PortPunctual;
    var v := GetView(T, s, n);
    ViewBack(T, s, n);
    forall q | q in v.ports ensures PortPunctual(v.ports[q], x, s.tick) {
      assert PortPunctual(s.ports[q], x, s.tick);
    }
    forall k | k in v.rx ensures SlotsPunctual(T, k, v.rx[k], x, s.tick) {
      assert LinkPunctual(T, k, s.edges[(k, n)], x, s.tick);
    }
    forall m | m in v.tx ensures SlotsEmpty(v.tx[m]) {
      assert LinkPunctual(T, n, s.edges[(n, m)], x, s.tick);
    }
  }

  // ----- Nothing competes for admission -----

  lemma SameMessage(T: Topology, sent: seq<Message>, p: Packet, p': Packet)
    requires Genuine(T, sent, p) && Genuine(T, sent, p') && p.xmt == p'.xmt
    ensures p.src == p'.src && p.dst == p'.dst && p.cha == p'.cha && p.tgt == p'.tgt && p.start == p'.start
    ensures p.idx == p'.idx ==> p == p'
  {
  }

  /** Two packets of one message offered to the same node over links come over the same link and channel. */
  lemma OneOffer(T: Topology, sent: seq<Message>, n: NodeId, k: NodeId, slots: Slots, c: nat, k': NodeId, slots': Slots,
                 c': nat)
    requires T.Valid() && k in T.nodes && k' in T.nodes && SlotsOk(T, sent, k, n, slots)
             && SlotsOk(T, sent, k', n, slots')
    requires c < |slots| && slots[c].Some? && c' < |slots'| && slots'[c'].Some?
             && slots[c].value.xmt == slots'[c'].value.xmt
    ensures k == k' && c == c'
  {
    hide OnPath;
    var p, p' := slots[c].value, slots'[c'].value;
    assert RightPlace(T, sent, k, p) && RightPlace(T, sent, k', p');
    SameMessage(T, sent, p, p');
    PacketTargetNode(T, sent, k, p);
    Hop(T, k, p.tgt);
    Hop(T, k', p.tgt);
    OnPathUnique(T, T.NodeOf(p.src), k, k', p.tgt);
  }

  /** The node has room for what arbitration offers it. */
  ghost predicate Open(T: Topology, n: NodeId, v: View) {
    var p := Chosen(v, Arbitrate(T.Rxs(n), T.Attached(n), v).choice);
    p.Some? ==> Accepts(T, n, v.node.buffered, p.value)
  }

  ghost predicate AllOpen(T: Topology, s: Net) {
    forall n {:trigger s.nodes[n]} :: n in s.nodes ==> Open(T, n, GetView(T, s, n))
  }

  /** Then the choice of arbitration is admitted. */
  lemma TakenIsChoice(T: Topology, n: NodeId, v: View)
    requires Open(T, n, v)
    ensures Chosen(v, Arbitrate(T.Rxs(n), T.Attached(n), v).choice).Some? ==>
              Taken(T, n, v) == Arbitrate(T.Rxs(n), T.Attached(n), v).choice
  {
    hide Arbitrate;
  }

  /** Every output into a node is empty once the node has admitted its packet. */
  lemma OutputsCleared(T: Topology, sent: seq<Message>, n: NodeId, v: View, x: nat, now: int)
    requires T.Valid() && n in T.nodes && ViewOk(T, sent, n, v) && ViewPunctual(T, n, v, x, now)
             && Open(T, n, v)
    ensures forall k :: k in v.rx ==> k in RxOut(T, n, v) && SlotsEmpty(RxOut(T, n, v)[k])
  {
    hide ViewOk, Taken, PipePunctual, PortPunctual, Topology.Valid, LinkStamp, RightPlace, OnPath;
    forall k, c | k in v.rx && 0 <= c < |v.rx[k]| && v.rx[k][c].Some?
      ensures Taken(T, n, v) == FromLink(k, c)
    {
      OccupiedIsTaken(T, sent, n, v, x, now, k, c);
    }
    forall k | k in v.rx ensures k in RxOut(T, n, v) && SlotsEmpty(RxOut(T, n, v)[k]) {
      TakenLinkThere(T, n, v);
      forall c | 0 <= c < |RxOut(T, n, v)[k]| ensures RxOut(T, n, v)[k][c].None? {
        assert v.rx[k][c].Some? ==> Taken(T, n, v) == FromLink(k, c);
      }
    }
  }

  lemma TakenLinkThere(T: Topology, n: NodeId, v: View)
    ensures Taken(T, n, v).FromLink? ==> Taken(T, n, v).k in v.rx && Taken(T, n, v).c < |v.rx[Taken(T, n, v).k]|
    ensures RxOut(T, n, v).Keys == v.rx.Keys
    ensures forall k :: k in v.rx ==> |RxOut(T, n, v)[k]| == |v.rx[k]|
  {
    hide Arbitrate;
  }

  lemma OccupiedIsTaken(T: Topology, sent: seq<Message>, n: NodeId, v: View, x: nat, now: int, k: NodeId, c: nat)
    requires T.Valid() && n in T.nodes && ViewOk(T, sent, n, v) && ViewPunctual(T, n, v, x, now)
             && Open(T, n, v)
    requires k in v.rx && c < |v.rx[k]| && v.rx[k][c].Some?
    ensures Taken(T, n, v) == FromLink(k, c)
  {
    hide ViewOk, Taken, Arbitrate, PipePunctual, Topology.Valid, LinkStamp, SlotsOk, OnPath;
    CandidateFound(T, sent, n, v);
    TakenIsChoice(T, n, v);
    RxIsOk(T, sent, n, v, k);
    match Taken(T, n, v)
    case FromLink(k', c') =>
      FromLinkOk(T, sent, n, v, k', c');
      OneOffer(T, sent, n, k, v.rx[k], c, k', v.rx[k'], c');
    case FromPort(q, d) =>
      FromPortOk(T, sent, n, v, q, d);
      assert PortPunctual(v.ports[q], x, now) && QueuePunctual(v.ports[q].sendBuf[d], x, now);
      SlotGenuine(T, sent, k, n, v.rx[k], c);
      SameMessage(T, sent, v.rx[k][c].value, v.ports[q].sendBuf[d][0]);
      NothingReturns(T, sent, k, n, v.rx[k], c);
    case NoChoice =>
  }

  lemma RxIsOk(T: Topology, sent: seq<Message>, n: NodeId, v: View, k: NodeId)
    requires T.Valid() && ViewOk(T, sent, n, v) && k in v.rx
    ensures SlotsOk(T, sent, k, n, v.rx[k]) && k in T.nodes
  {
    hide SlotsOk, PipeOk, QueuesOk;
  }

  lemma SlotGenuine(T: Topology, sent: seq<Message>, k: NodeId, n: NodeId, slots: Slots, c: nat)
    requires SlotsOk(T, sent, k, n, slots) && c < |slots| && slots[c].Some?
    ensures Genuine(T, sent, slots[c].value) && slots[c].value.cha == c
  {
    hide OnPath;
    assert RightPlace(T, sent, k, slots[c].value);
  }

  /** A queued packet is admitted at once. */
  lemma QueuedIsTaken(T: Topology, sent: seq<Message>, n: NodeId, v: View, x: nat, now: int, q: PortId, d: nat)
    requires T.Valid() && n in T.nodes && ViewOk(T, sent, n, v) && ViewPunctual(T, n, v, x, now)
             && Open(T, n, v)
    requires q in v.ports && d < |v.ports[q].sendBuf| && v.ports[q].sendBuf[d] != []
    ensures Taken(T, n, v) == FromPort(q, d)
  {
    hide ViewOk, Taken, Arbitrate, PipePunctual, Topology.Valid, LinkStamp, SlotsOk, OnPath;
    CandidateFound(T, sent, n, v);
    TakenIsChoice(T, n, v);
    QueueOfView(T, sent, n, v, q, d);
    assert PortPunctual(v.ports[q], x, now) && QueuePunctual(v.ports[q].sendBuf[d], x, now);
    match Taken(T, n, v)
    case FromLink(k, c) =>
      FromLinkOk(T, sent, n, v, k, c);
      SlotGenuine(T, sent, k, n, v.rx[k], c);
      SameMessage(T, sent, v.rx[k][c].value, v.ports[q].sendBuf[d][0]);
      NothingReturns(T, sent, k, n, v.rx[k], c);
    case FromPort(q', d') =>
      FromPortOk(T, sent, n, v, q', d');
      assert PortPunctual(v.ports[q'], x, now) && QueuePunctual(v.ports[q'].sendBuf[d'], x, now);
      SameMessage(T, sent, v.ports[q'].sendBuf[d'][0], v.ports[q].sendBuf[d][0]);
    case NoChoice =>
  }

  lemma QueueOfView(T: Topology, sent: seq<Message>, n: NodeId, v: View, q: PortId, d: nat)
    requires ViewOk(T, sent, n, v) && q in v.ports && d < |v.ports[q].sendBuf| && v.ports[q].sendBuf[d] != []
    ensures Genuine(T, sent, v.ports[q].sendBuf[d][0]) && v.ports[q].sendBuf[d][0].src == q
            && v.ports[q].sendBuf[d][0].cha == d
    ensures T.NodeOf(q) == n
  {
    hide SlotsOk, PipeOk;
    assert QueuesOk(T, sent, q, v.ports[q]) && QueueOk(T, sent, q, d, v.ports[q].sendBuf[d]);
  }

  // ----- The pipeline -----

  /** Packets of one message in one pipeline, all on time, have different waits. */
  ghost predicate Strict(pipe: seq<Piped>) {
    forall i, j :: 0 <= i < j < |pipe| ==> pipe[i].remain < pipe[j].remain
  }

  /** The packet offered to a node is on time for the node's pipeline, and its route visits the node. */
  lemma OfferedPunctual(T: Topology, sent: seq<Message>, n: NodeId, v: View, x: nat, now: int, choice: Choice)
    requires T.Valid() && n in T.nodes && ViewOk(T, sent, n, v) && ViewPunctual(T, n, v, x, now)
    requires Chosen(v, choice).Some?
    ensures var p := Chosen(v, choice).value;
            && Genuine(T, sent, p) && p.xmt == x && QueueStamp(p) + HopTime(T, Behind(T, n, p)) == now
            && p.tgt in T.nodes && OnPath(T, T.NodeOf(p.src), n, p.tgt)
  {
    hide Behind, OnPath, ViewOk, HopTime, Topology.Valid, PipePunctual, SlotsEmpty, PortPunctual, SlotsPunctual;
    match choice
    case FromLink(k, c) =>
      var p := v.rx[k][c].value;
      RxIsOk(T, sent, n, v, k);
      assert RightPlace(T, sent, k, p) && T.Next(k, p.tgt) == n;
      EnterFromLink(T, sent, k, n, p);
      PacketTargetNode(T, sent, k, p);
      OnPathNext(T, T.NodeOf(p.src), k, p.tgt);
      SlotPunctual(T, k, v.rx[k], x, now, c);
    case FromPort(q, c) =>
      var p := v.ports[q].sendBuf[c][0];
      QueueOfView(T, sent, n, v, q, c);
      EnterFromQueue(T, p);
      QueueFront(v.ports[q], x, now, c);
      GenuineTarget(T, sent, p);
      OnPathStart(T, n, p.tgt);
  }

  lemma SlotPunctual(T: Topology, k: NodeId, slots: Slots, x: nat, now: int, c: nat)
    requires SlotsPunctual(T, k, slots, x, now) && c < |slots| && slots[c].Some?
    ensures slots[c].value.xmt == x && LinkStamp(T, k, slots[c].value) == now
  {
    hide LinkStamp;
  }

  lemma QueueFront(port: Port, x: nat, now: int, c: nat)
    requires PortPunctual(port, x, now) && c < |port.sendBuf| && port.sendBuf[c] != []
    ensures port.sendBuf[c][0].xmt == x && QueueStamp(port.sendBuf[c][0]) == now
  {
    assert QueuePunctual(port.sendBuf[c], x, now);
  }

  lemma GenuineTarget(T: Topology, sent: seq<Message>, p: Packet)
    requires T.Valid() && Genuine(T, sent, p)
    ensures p.tgt in T.nodes && p.tgt == T.NodeOf(sent[p.xmt].dst) && p.src == sent[p.xmt].src
  {
  }

  /** The packet a node admits is on time for the node's pipeline. */
  lemma EnteringPunctual(T: Topology, sent: seq<Message>, n: NodeId, v: View, x: nat, now: int)
    requires T.Valid() && n in T.nodes && ViewOk(T, sent, n, v) && ViewPunctual(T, n, v, x, now)
    ensures var p := Entering(T, n, v); p.Some? ==>
              p.value.xmt == x && QueueStamp(p.value) + HopTime(T, Behind(T, n, p.value)) == now
  {
    hide Taken, Behind, OnPath, ViewOk, ViewPunctual, HopTime, Topology.Valid, Chosen;
    if Entering(T, n, v).Some? {
      OfferedPunctual(T, sent, n, v, x, now, Taken(T, n, v));
    }
  }

  lemma PipeInPunctual(T: Topology, sent: seq<Message>, n: NodeId, v: View, x: nat, now: int)
    requires T.Valid() && n in T.nodes && ViewOk(T, sent, n, v) && ViewPunctual(T, n, v, x, now)
    ensures PipePunctual(T, n, PipeIn(T, n, v), x, now)
  {
    hide Entering, Behind, HopTime, ViewOk, Topology.Valid;
    EnteringPunctual(T, sent, n, v, x, now);
  }

  /** Two packets of one message in one pipeline with the same wait are the same packet, if both are on time. */
  lemma SameWait(T: Topology, sent: seq<Message>, n: NodeId, e: Piped, e': Piped, x: nat, now: int)
    requires Genuine(T, sent, e.pack) && Genuine(T, sent, e'.pack) && e.pack.xmt == x == e'.pack.xmt
    requires PipeStamp(T, n, e) == now == PipeStamp(T, n, e') && e.remain == e'.remain
    ensures e.pack == e'.pack
  {
    SameMessage(T, sent, e.pack, e'.pack);
  }

  lemma PipeInStrict(T: Topology, h: History, s: Net, n: NodeId, x: nat)
    requires T.Valid() && Inv(T, h, s) && Punctual(T, s, x) && n in s.nodes
    ensures Strict(PipeIn(T, n, GetView(T, s, n)))
  {
    hide Inv, GetView, PipeIn, PipeStamp, Genuine, Topology.Valid, Punctual, PlacesOk, ViewOk, ViewPunctual, At;
    InvPlaces(T, h, s);
    var v := GetView(T, s, n);
    var pipe := PipeIn(T, n, v);
    ViewIsOk(T, h.sent, s, n);
    ViewIsPunctual(T, s, n, x);
    PipeInPunctual(T, h.sent, n, v, x, s.tick);
    StepPipeOk(T, h.sent, n, v);
    forall i, j | 0 <= i < j < |pipe| ensures pipe[i].remain < pipe[j].remain {
      assert StaysOk(T, h.sent, n, pipe[i]) && StaysOk(T, h.sent, n, pipe[j]);
      if pipe[i].remain == pipe[j].remain {
        SameWait(T, h.sent, n, pipe[i], pipe[j], x, s.tick);
        PipeInDistinct(T, h, s, n, i, j);
      }
    }
  }

  /** The place a packet of the node's working pipeline occupied before the tick. */
  lemma PipeInOrigin(T: Topology, s: Net, n: NodeId, i: nat) returns (pl: Place)
    requires n in s.nodes && i < |PipeIn(T, n, GetView(T, s, n))|
    ensures Travelling(pl) && At(s, pl) == Some(PipeIn(T, n, GetView(T, s, n))[i].pack)
    ensures i < |s.nodes[n].pipeline| ==> pl == Piping(n, i)
    ensures i >= |s.nodes[n].pipeline| ==> !pl.Piping? && i == |s.nodes[n].pipeline|
  {
    hide GetView, Entering, At;
    ViewNode(T, s, n);
    if i < |s.nodes[n].pipeline| {
      pl := Piping(n, i);
      PipePlaceAt(s, n, i);
    } else {
      pl := EnteringPlace(T, s, n);
    }
  }

  lemma EnteringPlace(T: Topology, s: Net, n: NodeId) returns (pl: Place)
    requires n in s.nodes && Entering(T, n, GetView(T, s, n)).Some?
    ensures Travelling(pl) && !pl.Piping? && At(s, pl) == Entering(T, n, GetView(T, s, n))
  {
    hide GetView, Taken, At, Chosen;
    pl := ChosenPlace(T, s, n, Taken(T, n, GetView(T, s, n)));
  }

  lemma PipeInDistinct(T: Topology, h: History, s: Net, n: NodeId, i: nat, j: nat)
    requires T.Valid() && Inv(T, h, s) && n in s.nodes && i < j < |PipeIn(T, n, GetView(T, s, n))|
    ensures PipeIn(T, n, GetView(T, s, n))[i].pack != PipeIn(T, n, GetView(T, s, n))[j].pack
  {
    hide Inv, GetView, PipeIn, Topology.Valid, At;
    var a := PipeInOrigin(T, s, n, i);
    var b := PipeInOrigin(T, s, n, j);
    if PipeIn(T, n, GetView(T, s, n))[i].pack == PipeIn(T, n, GetView(T, s, n))[j].pack {
      OneTravellingPlace(T, h, s, a, b, PipeIn(T, n, GetView(T, s, n))[i].pack);
    }
  }

  // ----- Room in the pipeline -----

  /** Hops from the node a message is sent from to the node it is sent to. */
  ghost function Hops(T: Topology, m: Message): nat { T.Dist(T.NodeOf(m.src), T.NodeOf(m.dst)) }

  /**
   The buffers are never too small for the message: it forwards nothing, or they hold all of it that can be waiting.
   */
  ghost predicate Roomy(T: Topology, m: Message)
    requires MessageOk(T, m)
  {
    !T.config.congestion.enabled || Hops(T, m) == 0
    || T.config.latency < T.config.congestion.limit || Count(T, m) - 1 < T.config.congestion.limit
  }

  lemma {:induction false} StrictLength(pipe: seq<Piped>, lo: int, hi: int)
    requires Strict(pipe) && lo <= hi && forall i :: 0 <= i < |pipe| ==> lo <= pipe[i].remain < hi
    ensures |pipe| <= hi - lo
    decreases |pipe|
  {
    if pipe != [] {
      var rest, low := pipe[1..], pipe[0].remain;
      forall i | 0 <= i < |rest| ensures low + 1 <= rest[i].remain < hi {
        assert rest[i] == pipe[i + 1];
      }
      StrictLength(rest, low + 1, hi);
    }
  }

  lemma PipelineOk(T: Topology, sent: seq<Message>, s: Net, n: NodeId, i: nat)
    requires PlacesOk(T, sent, s) && n in s.nodes && i < |s.nodes[n].pipeline|
    ensures Genuine(T, sent, s.nodes[n].pipeline[i].pack) && s.nodes[n].pipeline[i].remain <= T.config.latency
  {
    hide EdgesOk, PortsOk, Genuine, OnPath;
    assert NodeOk(T, sent, n, s.nodes[n]) && StaysOk(T, sent, n, s.nodes[n].pipeline[i]);
  }

  lemma PipelineStrict(T: Topology, h: History, s: Net, n: NodeId, x: nat)
    requires T.Valid() && Inv(T, h, s) && Punctual(T, s, x) && n in s.nodes
    ensures Strict(s.nodes[n].pipeline)
  {
    hide Inv, PipeStamp, Genuine, Topology.Valid, PlacesOk, At, LinkPunctual, PortPunctual;
    InvPlaces(T, h, s);
    var pipe := s.nodes[n].pipeline;
    assert PipePunctual(T, n, pipe, x, s.tick);
    PipelineSorted(T, h.sent, s, n);
    forall i, j | 0 <= i < j < |pipe| ensures pipe[i].remain < pipe[j].remain {
      if pipe[i].remain == pipe[j].remain {
        PipelineOk(T, h.sent, s, n, i);
        PipelineOk(T, h.sent, s, n, j);
        SameWait(T, h.sent, n, pipe[i], pipe[j], x, s.tick);
        PipePlaceAt(s, n, i);
        PipePlaceAt(s, n, j);
        OneTravellingPlace(T, h, s, Piping(n, i), Piping(n, j), pipe[i].pack);
      }
    }
  }

  lemma PipelineSorted(T: Topology, sent: seq<Message>, s: Net, n: NodeId)
    requires PlacesOk(T, sent, s) && n in s.nodes
    ensures Sorted(s.nodes[n].pipeline)
  {
    hide EdgesOk, PortsOk, AllStay, Sorted;
    assert NodeOk(T, sent, n, s.nodes[n]);
  }

  /** A packet in the pipeline that an on-time packet comes to is as far ahead of it in the message as in its wait. */
  lemma WaitsInOrder(T: Topology, h: History, s: Net, n: NodeId, x: nat, choice: Choice, i: nat)
    requires T.Valid() && Inv(T, h, s) && Punctual(T, s, x) && n in s.nodes && i < |s.nodes[n].pipeline|
    requires Chosen(GetView(T, s, n), choice).Some?
    ensures T.config.latency - Chosen(GetView(T, s, n), choice).value.idx <= s.nodes[n].pipeline[i].remain
    ensures s.nodes[n].pipeline[i].remain < T.config.latency
  {
    hide Inv, GetView, Chosen, Topology.Valid, PlacesOk, At, LinkPunctual, PortPunctual, Genuine, HopTime, ViewPunctual,
      ViewOk, OnPath, Behind;
    InvPlaces(T, h, s);
    var e, p := s.nodes[n].pipeline[i], Chosen(GetView(T, s, n), choice).value;
    ViewIsOk(T, h.sent, s, n);
    ViewIsPunctual(T, s, n, x);
    OfferedPunctual(T, h.sent, n, GetView(T, s, n), x, s.tick, choice);
    assert PipePunctual(T, n, s.nodes[n].pipeline, x, s.tick);
    PipelineOk(T, h.sent, s, n, i);
    SameMessage(T, h.sent, e.pack, p);
    SameBehind(T, n, e.pack, p);
    PipePlaceAt(s, n, i);
    var pl := ChosenPlace(T, s, n, choice);
    if e.pack == p {
      OneTravellingPlace(T, h, s, Piping(n, i), pl, p);
    }
  }

  lemma SameBehind(T: Topology, n: NodeId, p: Packet, p': Packet)
    requires p.src == p'.src && p.tgt == p'.tgt
    ensures Behind(T, n, p) == Behind(T, n, p')
  {
  }

  /** So the pipeline holds no more packets than the latency and than the packets sent before. */
  lemma PipelineShort(T: Topology, h: History, s: Net, n: NodeId, x: nat, choice: Choice)
    requires T.Valid() && Inv(T, h, s) && Punctual(T, s, x) && n in s.nodes
    requires Chosen(GetView(T, s, n), choice).Some?
    ensures |s.nodes[n].pipeline| <= T.config.latency
    ensures |s.nodes[n].pipeline| <= Chosen(GetView(T, s, n), choice).value.idx
  {
    hide Inv, GetView, Chosen, Topology.Valid, Punctual, Strict;
    var pipe, p := s.nodes[n].pipeline, Chosen(GetView(T, s, n), choice).value;
    PipelineStrict(T, h, s, n, x);
    forall i | 0 <= i < |pipe| ensures T.config.latency - p.idx <= pipe[i].remain < T.config.latency {
      WaitsInOrder(T, h, s, n, x, choice, i);
    }
    StrictLength(pipe, T.config.latency - p.idx, T.config.latency);
    StrictLength(pipe, 0, T.config.latency);
  }

  lemma NodeOpen(T: Topology, h: History, s: Net, n: NodeId, x: nat)
    requires T.Valid() && Inv(T, h, s) && Punctual(T, s, x) && n in s.nodes
    requires var p := Chosen(GetView(T, s, n), Arbitrate(T.Rxs(n), T.Attached(n), GetView(T, s, n)).choice);
             p.Some? && p.value.tgt != n && T.config.congestion.enabled ==>
               T.config.latency < T.config.congestion.limit || p.value.idx < T.config.congestion.limit
    ensures Open(T, n, GetView(T, s, n))
  {
    hide Inv, GetView, Chosen, Topology.Valid, Punctual, Arbitrate;
    var choice := Arbitrate(T.Rxs(n), T.Attached(n), GetView(T, s, n)).choice;
    if Chosen(GetView(T, s, n), choice).Some? {
      PipelineShort(T, h, s, n, x, choice);
      CounterIs(T, h, s, n);
      ViewNode(T, s, n);
    }
  }

  /** A lone message with room for it finds every node open. */
  lemma RoomyIsOpen(T: Topology, h: History, s: Net, x: nat)
    requires T.Valid() && Inv(T, h, s) && Punctual(T, s, x) && SentOk(T, h.sent) && x < |h.sent| && Roomy(T, h.sent[x])
    ensures AllOpen(T, s)
  {
    hide Inv, GetView, Chosen, Topology.Valid, Punctual, Arbitrate, Open, ViewOk, ViewPunctual, PlacesOk, PacketCount;
    InvPlaces(T, h, s);
    forall n | n in s.nodes ensures Open(T, n, GetView(T, s, n)) {
      var choice := Arbitrate(T.Rxs(n), T.Attached(n), GetView(T, s, n)).choice;
      if Chosen(GetView(T, s, n), choice).Some? {
        ViewIsOk(T, h.sent, s, n);
        ViewIsPunctual(T, s, n, x);
        OfferedPunctual(T, h.sent, n, GetView(T, s, n), x, s.tick, choice);
        OfferedFar(T, h.sent, n, Chosen(GetView(T, s, n), choice).value);
      }
      NodeOpen(T, h, s, n, x);
    }
  }

  /** A packet that is not for the node it is offered to has a hop to make. */
  lemma OfferedFar(T: Topology, sent: seq<Message>, n: NodeId, p: Packet)
    requires T.Valid() && n in T.nodes && Genuine(T, sent, p) && p.tgt in T.nodes
    requires OnPath(T, T.NodeOf(p.src), n, p.tgt)
    ensures p.tgt != n ==> Hops(T, sent[p.xmt]) > 0
    ensures p.idx < Count(T, sent[p.xmt])
  {
    hide OnPath, PacketCount;
    GenuineTarget(T, sent, p);
    if p.tgt != n {
      Hop(T, n, p.tgt);
      OnPathDist(T, T.NodeOf(p.src), n, p.tgt);
    }
  }

  // ----- The release pass, when nothing is in the way -----

  /** While all packets still wait, the pass ages each of them by one cycle. */
  lemma {:induction false} ReleaseAges(T: Topology, n: NodeId, pipe: seq<Piped>, tx: map<NodeId, Slots>, x: nat,
                                       now: int)
    requires PipePunctual(T, n, pipe, x, now) && Waits(T, pipe) && forall i :: 0 <= i < |pipe| ==> pipe[i].remain > 0
    ensures PipePunctual(T, n, Release(T, n, pipe, tx).0, x, now + 1) && Release(T, n, pipe, tx).1 == tx
    decreases |pipe|
  {
    hide PipeStamp;
    if pipe != [] {
      ReleaseAges(T, n, pipe[1..], tx, x, now);
      AgedStamp(T, n, pipe[0]);
    }
  }

  /** Into empty inputs the pass releases exactly the packet that has waited long enough. */
  lemma ReleasePunctual(T: Topology, n: NodeId, pipe: seq<Piped>, tx: map<NodeId, Slots>, x: nat, now: int)
    requires PipePunctual(T, n, pipe, x, now) && Waits(T, pipe) && Strict(pipe)
    requires forall m :: m in tx ==> SlotsEmpty(tx[m])
    requires forall i :: 0 <= i < |pipe| ==>
                           T.Next(n, pipe[i].pack.tgt) in tx && pipe[i].pack.cha < |tx[T.Next(n, pipe[i].pack.tgt)]|
    ensures var r := Release(T, n, pipe, tx);
            && PipePunctual(T, n, r.0, x, now + 1)
            && forall m, c :: m in r.1 && 0 <= c < |r.1[m]| && r.1[m][c].Some? ==>
                                pipe != [] && pipe[0].remain == 0 && r.1[m][c].value == pipe[0].pack
                                && LinkStamp(T, n, pipe[0].pack) == now + 1
                                && m == T.Next(n, pipe[0].pack.tgt) && c == pipe[0].pack.cha
  {
    hide PipeStamp, LinkStamp;
    if pipe != [] {
      var head, rest := pipe[0], pipe[1..];
      AgedStamp(T, n, head);
      assert forall i :: 0 <= i < |rest| ==> rest[i] == pipe[i + 1] && rest[i].remain > 0;
      ReleaseAges(T, n, rest, Filled(T, n, head, tx), x, now);
    }
  }

  /** Every packet of the working pipeline finds its link. */
  lemma PipeInLinks(T: Topology, sent: seq<Message>, n: NodeId, v: View)
    requires T.Valid() && n in T.nodes && ViewOk(T, sent, n, v)
    ensures var pipe := PipeIn(T, n, v);
            forall i :: 0 <= i < |pipe| ==>
                          T.Next(n, pipe[i].pack.tgt) in v.tx && pipe[i].pack.cha < |v.tx[T.Next(n, pipe[i].pack.tgt)]|
  {
    hide ViewOk, PipeIn, Topology.Valid, RightPlace;
    StepPipeOk(T, sent, n, v);
    var pipe := PipeIn(T, n, v);
    forall i | 0 <= i < |pipe|
      ensures T.Next(n, pipe[i].pack.tgt) in v.tx && pipe[i].pack.cha < |v.tx[T.Next(n, pipe[i].pack.tgt)]|
    {
      assert StaysOk(T, sent, n, pipe[i]);
      PacketTarget(T, sent, n, pipe[i].pack);
      Hop(T, n, pipe[i].pack.tgt);
      TxThere(T, sent, n, v, T.Next(n, pipe[i].pack.tgt));
    }
  }

  lemma TxThere(T: Topology, sent: seq<Message>, n: NodeId, v: View, m: NodeId)
    requires ViewOk(T, sent, n, v) && (n, m) in T.links
    ensures m in v.tx && |v.tx[m]| == T.Channels()
  {
    hide RightPlace, PipeOk, QueuesOk;
  }

  lemma NodeReleases(T: Topology, h: History, s: Net, n: NodeId, x: nat)
    requires T.Valid() && Inv(T, h, s) && Punctual(T, s, x) && n in s.nodes
    ensures var v := GetView(T, s, n);
            var pipe := PipeIn(T, n, v);
            var r := Release(T, n, pipe, v.tx);
            && PipePunctual(T, n, r.0, x, s.tick + 1) && PipePunctual(T, n, pipe, x, s.tick)
            && forall m, c :: m in r.1 && 0 <= c < |r.1[m]| && r.1[m][c].Some? ==>
                                pipe != [] && pipe[0].remain == 0 && r.1[m][c].value == pipe[0].pack
                                && LinkStamp(T, n, pipe[0].pack) == s.tick + 1
                                && m == T.Next(n, pipe[0].pack.tgt) && c == pipe[0].pack.cha
  {
    hide Inv, GetView, PipeIn, Release, Topology.Valid, Punctual, PlacesOk, ViewOk, PipePunctual, LinkStamp, Strict,
      Waits, SlotsPunctual, SlotsEmpty, PortPunctual;
    InvPlaces(T, h, s);
    var v := GetView(T, s, n);
    ViewIsOk(T, h.sent, s, n);
    ViewIsPunctual(T, s, n, x);
    PipeInPunctual(T, h.sent, n, v, x, s.tick);
    PipeInStrict(T, h, s, n, x);
    PipeInLinks(T, h.sent, n, v);
    StepPipeOk(T, h.sent, n, v);
    PipeWaits(T, h.sent, n, PipeIn(T, n, v));
    ReleasePunctual(T, n, PipeIn(T, n, v), v.tx, x, s.tick);
  }

  lemma PipeWaits(T: Topology, sent: seq<Message>, n: NodeId, pipe: seq<Piped>)
    requires PipeOk(T, sent, n, pipe)
    ensures Waits(T, pipe)
  {
    hide RightPlace, Sorted;
    forall i | 0 <= i < |pipe| ensures pipe[i].remain <= T.config.latency {
      assert StaysOk(T, sent, n, pipe[i]);
    }
  }

  // ----- A tick -----

  lemma TickPipePunctual(T: Topology, h: History, s: Net, n: NodeId, x: nat)
    requires T.Valid() && Inv(T, h, s) && Punctual(T, s, x) && n in s.nodes
    ensures n in Tick(T, s).nodes && PipePunctual(T, n, Tick(T, s).nodes[n].pipeline, x, s.tick + 1)
  {
    hide Inv, GetView, PipeIn, Release, Topology.Valid, Punctual, PipePunctual, Tick, Handed;
    NodeReleases(T, h, s, n, x);
    TickNode(T, s, n);
  }

  /** A link after the node phase: its outputs are empty, and at most one input holds a packet, which is on time. */
  ghost predicate OneInput(T: Topology, k: NodeId, e: Edge, x: nat, now: int) {
    && SlotsEmpty(e.output) && |e.input| == |e.output|
    && (forall c :: 0 <= c < |e.input| && e.input[c].Some? ==>
                      e.input[c].value.xmt == x && LinkStamp(T, k, e.input[c].value) == now)
    && forall c, d :: 0 <= c < |e.input| && 0 <= d < |e.input| && e.input[c].Some? && e.input[d].Some? ==> c == d
  }

  lemma OpenAt(T: Topology, s: Net, n: NodeId)
    requires AllOpen(T, s) && n in s.nodes
    ensures Open(T, n, GetView(T, s, n))
  {
    hide Open, GetView;
    assert s.nodes[n] == s.nodes[n];
  }

  lemma LinkAfterNodesPunctual(T: Topology, h: History, s: Net, l: Link, x: nat)
    requires T.Valid() && Inv(T, h, s) && Punctual(T, s, x) && l in s.edges && AllOpen(T, s)
    ensures l in NodePhase(T, s).edges && OneInput(T, l.0, NodePhase(T, s).edges[l], x, s.tick + 1)
  {
    hide Inv, GetView, PipeIn, Release, RxOut, NodePhase, Topology.Valid, Punctual, PlacesOk, ViewOk, ViewPunctual,
      LinkStamp, AllOpen, Open;
    InvPlaces(T, h, s);
    LinkEndNodes(T, h.sent, s, l);
    OpenAt(T, s, l.1);
    NodeReleases(T, h, s, l.0, x);
    ViewIsOk(T, h.sent, s, l.1);
    ViewIsPunctual(T, s, l.1, x);
    OutputsCleared(T, h.sent, l.1, GetView(T, s, l.1), x, s.tick);
    ViewLink(T, s, l);
    SenderAfter(T, h.sent, s, l.0, l.1);
    ReceiverAfter(T, h.sent, s, l.0, l.1);
    NodePhaseKeys(T, s);
    NodePhasePlaces(T, h.sent, s);
    LinkEndNodes(T, h.sent, NodePhase(T, s), l);
  }

  lemma TransferPunctual(T: Topology, k: NodeId, e: Edge, x: nat, now: int)
    requires OneInput(T, k, e, x, now) && T.config.linkWidth > 0
    ensures LinkPunctual(T, k, Transfer(T.config.linkWidth, e, 0, 0), x, now)
  {
    hide Transfer, LinkStamp;
    var e' := Transfer(T.config.linkWidth, e, 0, 0);
    TransferMoves(T.config.linkWidth, e, 0, 0);
    if d: nat :| d < |e.input| && e.input[d].Some? {
      var m := TransferMovesOne(T.config.linkWidth, e, 0, d);
      assert m == d;
      forall c | 0 <= c < |e'.input| ensures e'.input[c].None? && (e'.output[c].Some? ==> e'.output[c] == e.input[c]) {
        assert e.output[c].None?;
        assert c != d ==> e.input[c].None?;
      }
    } else {
      forall c | 0 <= c < |e'.input| ensures e'.input[c].None? && e'.output[c].None? {
        assert e.input[c].None? && e.output[c].None?;
      }
    }
  }

  lemma TickLinkPunctual(T: Topology, h: History, s: Net, l: Link, x: nat)
    requires T.Valid() && Inv(T, h, s) && Punctual(T, s, x) && l in s.edges && AllOpen(T, s)
    ensures l in Tick(T, s).edges && LinkPunctual(T, l.0, Tick(T, s).edges[l], x, s.tick + 1)
  {
    hide Inv, NodePhase, Tick, Topology.WiringValid, Punctual, OneInput, LinkPunctual, Transfer, AllOpen;
    LinkAfterNodesPunctual(T, h, s, l, x);
    TickEdge(T, s, l);
    TransferPunctual(T, l.0, NodePhase(T, s).edges[l], x, s.tick + 1);
  }

  lemma TickPortPunctual(T: Topology, h: History, s: Net, q: PortId, x: nat)
    requires T.Valid() && Inv(T, h, s) && Punctual(T, s, x) && q in s.ports && AllOpen(T, s)
    ensures q in Tick(T, s).ports && PortPunctual(Tick(T, s).ports[q], x, s.tick + 1)
  {
    hide Inv, Tick, Taken, GetView, Topology.Valid, PlacesOk, ViewOk, ViewPunctual, AllOpen;
    InvPlaces(T, h, s);
    TickKeys(T, s);
    TickPlaces(T, h.sent, s);
    RecvWidth(T, h.sent, s, q);
    RecvWidth(T, h.sent, Tick(T, s), q);
    assert PortPunctual(s.ports[q], x, s.tick);
    var n := T.NodeOf(q);
    forall c | 0 <= c < T.Channels() ensures QueuePunctual(Tick(T, s).ports[q].sendBuf[c], x, s.tick + 1) {
      TickQueue(T, h.sent, s, q, c);
      assert QueueAt(s, q, c) == s.ports[q].sendBuf[c] && QueueAt(Tick(T, s), q, c) == Tick(T, s).ports[q].sendBuf[c];
      assert QueuePunctual(s.ports[q].sendBuf[c], x, s.tick);
      if QueueAt(s, q, c) != [] {
        QueuesStep(T, h.sent, s, q, c);
        QueueTaken(T, h, s, q, c, x);
      }
    }
  }

  lemma QueueTaken(T: Topology, h: History, s: Net, q: PortId, c: nat, x: nat)
    requires T.Valid() && Inv(T, h, s) && Punctual(T, s, x) && q in s.ports && AllOpen(T, s)
             && QueueAt(s, q, c) != []
    ensures T.NodeOf(q) in s.nodes && Taken(T, T.NodeOf(q), GetView(T, s, T.NodeOf(q))) == FromPort(q, c)
  {
    hide Inv, Taken, GetView, Topology.Valid, PlacesOk, ViewOk, ViewPunctual, Punctual, AllOpen, Open;
    InvPlaces(T, h, s);
    PortNode(T, s, q);
    OpenAt(T, s, T.NodeOf(q));
    var n := T.NodeOf(q);
    ViewIsOk(T, h.sent, s, n);
    ViewIsPunctual(T, s, n, x);
    ViewPort(T, s, q);
    QueuedIsTaken(T, h.sent, n, GetView(T, s, n), x, s.tick, q, c);
  }

  lemma PortNode(T: Topology, s: Net, q: PortId)
    requires Wired(T, s) && q in s.ports
    ensures T.NodeOf(q) in s.nodes
  {
    assert s.ports[q] == s.ports[q];
  }

  /** A tick moves every packet of the lone message as far as it can go. */
  lemma TickPunctual(T: Topology, h: History, s: Net, x: nat)
    requires T.Valid() && Inv(T, h, s) && Punctual(T, s, x) && AllOpen(T, s)
    ensures Punctual(T, Tick(T, s), x)
  {
    hide Inv, Tick, Topology.Valid, PipePunctual, LinkPunctual, PortPunctual, AllOpen;
    var s' := Tick(T, s);
    TickIds(T, s);
    TickKeys(T, s);
    forall n | n in s'.nodes ensures PipePunctual(T, n, s'.nodes[n].pipeline, x, s'.tick) {
      TickPipePunctual(T, h, s, n, x);
    }
    forall l | l in s'.edges ensures LinkPunctual(T, l.0, s'.edges[l], x, s'.tick) {
      TickLinkPunctual(T, h, s, l, x);
    }
    forall q | q in s'.ports ensures PortPunctual(s'.ports[q], x, s'.tick) {
      TickPortPunctual(T, h, s, q, x);
    }
  }
}
