/**
 Draining: while packets are in transit and every node that has something to
 admit has room for it, each tick strictly lowers a measure, so after finitely
 many ticks everything sent is ready to be received.
 */
module NocDrain {
  import opened Wrappers
  import opened RouteTable
  import opened NocState
  import opened NocInvariant
  import opened NocNodeStep
  import opened NocFlow

  // ----- The measure -----

  /** An upper bound on the moves a packet makes to cross `hops` links: four per link, and its waiting cycles. */
  function Cost(T: Topology, hops: nat): nat {
    if hops == 0 then 0 else Cost(T, hops - 1) + T.config.latency + 4
  }

  function SlotWeight(o: Option<Packet>, f: Flow, weight: nat): nat {
    if o.Some? && FlowOf(o.value) == f then weight else 0
  }

  function PipeWeight(pipe: seq<Piped>, f: Flow, base: nat): nat {
    if pipe == [] then 0
    else (if FlowOf(pipe[0].pack) == f then base + pipe[0].remain else 0) + PipeWeight(pipe[1..], f, base)
  }

  function QueueWeight(queue: seq<Packet>, f: Flow, weight: nat): nat {
    if queue == [] then 0 else (if FlowOf(queue[0]) == f then weight else 0) + QueueWeight(queue[1..], f, weight)
  }

  /** The moves left to the packets on one node's share of a route, when `hops` links follow the node's own. */
  function ShareWeight(T: Topology, e: Edge, pipe: seq<Piped>, f: Flow, hops: nat): nat {
    SlotWeight(Slot(e.output, f.cha), f, Cost(T, hops) + 1)
    + (SlotWeight(Slot(e.input, f.cha), f, Cost(T, hops) + 2) + PipeWeight(pipe, f, Cost(T, hops) + 3))
  }

  ghost function AheadWeight(T: Topology, s: Net, f: Flow, n: NodeId): nat
    decreases T.Dist(n, Target(T, f))
  {
    var t := Target(T, f);
    if n == t || !T.Reaches(n, t) then 0
    else
      Closer(T, n, t);
      var m := T.Next(n, t);
      AheadWeight(T, s, f, m) + ShareWeight(T, EdgeAt(s, (n, m)), PipeAt(s, n), f, T.Dist(m, t))
  }

  /** The moves left to the packets of one flow. */
  ghost function FlowWeight(T: Topology, s: Net, f: Flow): nat {
    AheadWeight(T, s, f, Origin(T, f))
    + QueueWeight(QueueAt(s, f.src, f.cha), f, Cost(T, T.Dist(Origin(T, f), Target(T, f))) + 1)
  }

  /** The measure: the moves left, summed over the flows of the first `n` messages. */
  ghost function Measure(T: Topology, sent: seq<Message>, s: Net, n: nat): nat
    requires n <= |sent|
  {
    if n == 0 then 0 else Measure(T, sent, s, n - 1) + FlowWeight(T, s, MessageFlow(sent[n - 1]))
  }

  // ----- Release pass -----

  lemma {:induction false} PipeWeightAppend(pipe: seq<Piped>, e: Piped, f: Flow, base: nat)
    ensures PipeWeight(pipe + [e], f, base) == PipeWeight(pipe, f, base) + if FlowOf(e.pack) == f then base + e.remain
                                               else 0
  {
    if pipe == [] {
      assert pipe + [e] == [e];
    } else {
      assert (pipe + [e])[1..] == pipe[1..] + [e];
      PipeWeightAppend(pipe[1..], e, f, base);
    }
  }

  lemma ConsWeight(e: Piped, pipe: seq<Piped>, f: Flow, base: nat)
    ensures PipeWeight([e] + pipe, f, base) == (if FlowOf(e.pack) == f then base + e.remain else 0)
                                               + PipeWeight(pipe, f, base)
  {
    assert ([e] + pipe)[1..] == pipe;
  }

  ghost predicate TargetsOk(T: Topology, pipe: seq<Piped>, f: Flow) {
    forall i :: 0 <= i < |pipe| && FlowOf(pipe[i].pack) == f ==> pipe[i].pack.tgt == Target(T, f)
  }

  /** The release pass never raises the weight of a flow. */
  lemma {:induction false} ReleaseWeight(T: Topology, n: NodeId, pipe: seq<Piped>, tx: map<NodeId, Slots>, f: Flow,
                                         w: nat)
    requires TargetsOk(T, pipe, f)
    ensures var r, m := Release(T, n, pipe, tx), T.Next(n, Target(T, f));
            && SlotWeight(TxSlot(r.1, m, f.cha), f, w) + PipeWeight(r.0, f, w + 1)
               <= SlotWeight(TxSlot(tx, m, f.cha), f, w) + PipeWeight(pipe, f, w + 1)
    decreases |pipe|
  {
    if pipe != [] {
      var head, rest, tx1 := pipe[0], pipe[1..], Filled(T, n, pipe[0], tx);
      assert TargetsOk(T, rest, f);
      ReleaseWeight(T, n, rest, tx1, f, w);
      HeadWeight(T, n, head, tx, f, w);
      var kept := Release(T, n, rest, tx1).0;
      if !Leaves(T, n, head, tx) {
        ConsWeight(Aged(head), kept, f, w + 1);
      }
    }
  }

  /**
   The head of the pipeline, whether it leaves, ages or stays, does not gain weight; unless it is blocked, it loses
   some.
   */
  lemma HeadWeight(T: Topology, n: NodeId, head: Piped, tx: map<NodeId, Slots>, f: Flow, w: nat)
    requires FlowOf(head.pack) == f ==> head.pack.tgt == Target(T, f)
    ensures var m := T.Next(n, Target(T, f));
            var after := if Leaves(T, n, head, tx) || FlowOf(head.pack) != f then 0 else w + 1 + Aged(head).remain;
            var before := if FlowOf(head.pack) == f then w + 1 + head.remain else 0;
            && SlotWeight(TxSlot(Filled(T, n, head, tx), m, f.cha), f, w)
               + after <= SlotWeight(TxSlot(tx, m, f.cha), f, w) + before
            && (FlowOf(head.pack) == f && (head.remain > 0 || Leaves(T, n, head, tx)) ==>
                  SlotWeight(TxSlot(Filled(T, n, head, tx), m, f.cha), f, w)
                  + after < SlotWeight(TxSlot(tx, m, f.cha), f, w) + before)
  {
    var m, hm := T.Next(n, Target(T, f)), T.Next(n, head.pack.tgt);
    if Leaves(T, n, head, tx) {
      if FlowOf(head.pack) == f {
        assert TxSlot(tx, m, f.cha) == None;
      } else if hm == m && head.pack.cha == f.cha {
        assert TxSlot(tx, m, f.cha) == None;
      }
    }
  }

  /** If the head of the pipeline ages or leaves, its flow loses weight. */
  lemma ReleaseProgress(T: Topology, n: NodeId, pipe: seq<Piped>, tx: map<NodeId, Slots>, f: Flow, w: nat)
    requires TargetsOk(T, pipe, f) && pipe != [] && FlowOf(pipe[0].pack) == f
    requires pipe[0].remain > 0 || Leaves(T, n, pipe[0], tx)
    ensures var r, m := Release(T, n, pipe, tx), T.Next(n, Target(T, f));
            && SlotWeight(TxSlot(r.1, m, f.cha), f, w) + PipeWeight(r.0, f, w + 1)
             < SlotWeight(TxSlot(tx, m, f.cha), f, w) + PipeWeight(pipe, f, w + 1)
  {
    var head, rest, tx1 := pipe[0], pipe[1..], Filled(T, n, pipe[0], tx);
    assert TargetsOk(T, rest, f);
    ReleaseWeight(T, n, rest, tx1, f, w);
    HeadWeight(T, n, head, tx, f, w);
    if !Leaves(T, n, head, tx) {
      ConsWeight(Aged(head), Release(T, n, rest, tx1).0, f, w + 1);
    }
  }

  // ----- Node phase, one hop -----

  /** What flow `f` weighs in the pipeline of `n` on arrival there: nothing at its target. */
  ghost function LandingWeight(T: Topology, f: Flow, n: NodeId): nat {
    if n == Target(T, f) then 0 else Cost(T, T.Dist(T.Next(n, Target(T, f)), Target(T, f))) + 3 + T.config.latency
  }

  /** Node `n` makes progress for flow `f`: it admits one of its packets, or its first waiting packet ages or leaves. */
  ghost predicate HeadMoves(T: Topology, s: Net, f: Flow, n: NodeId) {
    n in s.nodes &&
    var v := GetView(T, s, n);
    var pipe := PipeIn(T, n, v);
    pipe != [] && FlowOf(pipe[0].pack) == f && (pipe[0].remain > 0 || Leaves(T, n, pipe[0], v.tx))
  }

  ghost predicate Admits(T: Topology, s: Net, f: Flow, n: NodeId) {
    EnteringAt(T, s, n).Some? && FlowOf(EnteringAt(T, s, n).value) == f
  }

  /** The node phase on the hop out of `n`, in weights. */
  ghost predicate HopWeight(T: Topology, s: Net, s': Net, f: Flow, n: NodeId) {
    var t := Target(T, f);
    var m := T.Next(n, t);
    var hops := T.Dist(m, t);
    var e, e' := EdgeAt(s, (n, m)), EdgeAt(s', (n, m));
    var before := SlotWeight(Slot(e.input, f.cha), f, Cost(T, hops) + 2)
                  + PipeWeight(PipeAt(s, n), f, Cost(T, hops) + 3)
                  + SlotWeight(EnteringAt(T, s, n), f, LandingWeight(T, f, n));
    var after := SlotWeight(Slot(e'.input, f.cha), f, Cost(T, hops) + 2)
                 + PipeWeight(PipeAt(s', n), f, Cost(T, hops) + 3);
    && after <= before && (HeadMoves(T, s, f, n) ==> after < before)
    && SlotWeight(EnteringAt(T, s, m), f, Cost(T, hops) + 1) + SlotWeight(Slot(e'.output, f.cha), f, Cost(T, hops) + 1)
       == SlotWeight(Slot(e.output, f.cha), f, Cost(T, hops) + 1)
  }

  lemma PipeInWeight(T: Topology, n: NodeId, v: View, f: Flow, base: nat)
    requires Entering(T, n, v).Some? && Entering(T, n, v).value.tgt == n ==> FlowOf(Entering(T, n, v).value) != f
    ensures PipeWeight(PipeIn(T, n, v), f, base) == PipeWeight(v.node.pipeline, f, base)
                                                    + SlotWeight(Entering(T, n, v), f, base + T.config.latency)
  {
    hide Entering, PipeWeight;
    var p := Entering(T, n, v);
    if p.Some? {
      PipeWeightAppend(v.node.pipeline, Piped(p.value, T.config.latency), f, base);
    }
  }

  lemma OutgoingWeight(T: Topology, sent: seq<Message>, n: NodeId, v: View, f: Flow, w: nat)
    requires T.Valid() && n in T.nodes && ViewOk(T, sent, n, v) && n != Target(T, f)
    ensures var m, pipe := T.Next(n, Target(T, f)), PipeIn(T, n, v);
            var r := Release(T, n, pipe, v.tx);
            var before := SlotWeight(TxSlot(v.tx, m, f.cha), f, w) + PipeWeight(v.node.pipeline, f, w + 1)
                          + SlotWeight(Entering(T, n, v), f, w + 1 + T.config.latency);
            var after := SlotWeight(TxSlot(r.1, m, f.cha), f, w) + PipeWeight(r.0, f, w + 1);
            && after <= before
            && (pipe != [] && FlowOf(pipe[0].pack) == f && (pipe[0].remain > 0 || Leaves(T, n, pipe[0], v.tx)) ==>
                  after < before)
  {
    hide Entering, Release, TxSlot, PipeWeight, SlotWeight, ViewOk, PipeIn, Leaves, Topology.Valid;
    EnteringTarget(T, sent, n, v);
    PipeInWeight(T, n, v, f, w + 1);
    StepPipeOk(T, sent, n, v);
    var pipe := PipeIn(T, n, v);
    PipeTargets(T, sent, n, pipe, f);
    ReleaseWeight(T, n, pipe, v.tx, f, w);
    if pipe != [] && FlowOf(pipe[0].pack) == f && (pipe[0].remain > 0 || Leaves(T, n, pipe[0], v.tx)) {
      ReleaseProgress(T, n, pipe, v.tx, f, w);
    }
  }

  /** Slot weights follow the order equations of `NocFlow`. */
  lemma WeightOfSlots(a: Option<Packet>, b: Option<Packet>, c: Option<Packet>, f: Flow, w: nat)
    requires OfSlot(a, f) + OfSlot(b, f) == OfSlot(c, f)
    ensures SlotWeight(a, f, w) + SlotWeight(b, f, w) == SlotWeight(c, f, w)
  {
    assert |OfSlot(a, f)| + |OfSlot(b, f)| == |OfSlot(c, f)|;
  }

  lemma NodePhaseHopWeight(T: Topology, sent: seq<Message>, s: Net, f: Flow, n: NodeId)
    requires T.Valid() && PlacesOk(T, sent, s) && FlowOk(T, f) && n in T.nodes && n != Target(T, f)
    requires OnPath(T, Origin(T, f), n, Target(T, f))
    ensures HopWeight(T, s, NodePhase(T, s), f, n)
  {
    hide Release, PipeIn, RxOut, Entering, OnPath, NodePhase, PlacesOk, ViewOk, Slot, OfSlot, PipeWeight, SlotWeight,
      Cost, GetView, Leaves, Topology.Valid;
    var t := Target(T, f);
    SourceNode(T, f);
    var m := T.Next(n, t);
    Hop(T, n, t);
    LinkThere(T, sent, s, n, m);
    ViewIsOk(T, sent, s, n);
    ViewNode(T, s, n);
    ViewLink(T, s, (n, m));
    SenderAfter(T, sent, s, n, m);
    OutgoingWeight(T, sent, n, GetView(T, s, n), f, Cost(T, T.Dist(m, t)) + 2);
    NodePhaseHop(T, sent, s, f, n);
    WeightOfSlots(EnteringAt(T, s, m), Slot(EdgeAt(NodePhase(T, s), (n, m)).output, f.cha),
                  Slot(EdgeAt(s, (n, m)).output, f.cha), f,
                  Cost(T, T.Dist(m, t)) + 1);
  }

  lemma LinkThere(T: Topology, sent: seq<Message>, s: Net, n: NodeId, m: NodeId)
    requires PlacesOk(T, sent, s) && (n, m) in T.links
    ensures (n, m) in s.edges && n in s.nodes && m in s.nodes
  {
    assert s.edges[(n, m)] == s.edges[(n, m)];
  }

  // ----- Node phase, whole route -----

  /** Somewhere behind the start `n` of the rest of the route, a packet of the flow moves in the node phase. */
  ghost predicate ProgressAhead(T: Topology, s: Net, f: Flow, n: NodeId)
    decreases T.Dist(n, Target(T, f))
  {
    var t := Target(T, f);
    n != t && T.Reaches(n, t) &&
    (Closer(T, n, t); HeadMoves(T, s, f, n) || Admits(T, s, f, T.Next(n, t)) || ProgressAhead(T, s, f, T.Next(n, t)))
  }

  ghost predicate RouteWeight(T: Topology, s: Net, s': Net, f: Flow) {
    forall k :: k in T.nodes && k != Target(T, f) && OnPath(T, Origin(T, f), k, Target(T, f)) ==>
                  HopWeight(T, s, s', f, k)
  }

  lemma NodePhaseRouteWeight(T: Topology, sent: seq<Message>, s: Net, f: Flow)
    requires T.Valid() && PlacesOk(T, sent, s) && FlowOk(T, f)
    ensures RouteWeight(T, s, NodePhase(T, s), f)
  {
    hide HopWeight, OnPath, NodePhase, PlacesOk, Topology.Valid;
    forall k | k in T.nodes && k != Target(T, f) && OnPath(T, Origin(T, f), k, Target(T, f))
      ensures HopWeight(T, s, NodePhase(T, s), f, k)
    {
      NodePhaseHopWeight(T, sent, s, f, k);
    }
  }

  /** A packet weighs less in the pipeline it lands in than it did on the way there. */
  lemma LandingIsLighter(T: Topology, s: Net, f: Flow, m: NodeId)
    requires T.Valid() && FlowOk(T, f) && m in T.nodes
    ensures var w := Cost(T, T.Dist(m, Target(T, f))) + 1;
            && LandingWeight(T, f, m) < w
            && SlotWeight(EnteringAt(T, s, m), f, LandingWeight(T, f, m)) <= SlotWeight(EnteringAt(T, s, m), f, w)
            && (Admits(T, s, f, m) ==>
                  SlotWeight(EnteringAt(T, s, m), f, LandingWeight(T, f, m)) < SlotWeight(EnteringAt(T, s, m), f, w))
  {
    hide EnteringAt, Topology.Valid;
    SourceNode(T, f);
    if m != Target(T, f) {
      Hop(T, m, Target(T, f));
    }
  }

  lemma {:induction false} AheadWeightNodePhase(T: Topology, s: Net, s': Net, f: Flow, n: NodeId)
    requires T.Valid() && FlowOk(T, f) && n in T.nodes
    requires OnPath(T, Origin(T, f), n, Target(T, f)) && RouteWeight(T, s, s', f)
    ensures var before := AheadWeight(T, s, f, n) + SlotWeight(EnteringAt(T, s, n), f, LandingWeight(T, f, n));
            && AheadWeight(T, s', f, n) <= before
            && (ProgressAhead(T, s, f, n) ==> AheadWeight(T, s', f, n) < before)
    decreases T.Dist(n, Target(T, f))
  {
    hide EnteringAt, SlotWeight, PipeWeight, Cost, Slot, EdgeAt, PipeAt, HeadMoves, Admits, LandingWeight, OnPath,
      Topology.Valid;
    var t := Target(T, f);
    SourceNode(T, f);
    if n != t {
      var m := T.Next(n, t);
      Hop(T, n, t);
      OnPathNext(T, Origin(T, f), n, t);
      AheadWeightNodePhase(T, s, s', f, m);
      assert HopWeight(T, s, s', f, n);
      LandingIsLighter(T, s, f, m);
    }
  }

  lemma {:induction false} QueueWeightIs(queue: seq<Packet>, f: Flow, w: nat)
    ensures QueueWeight(queue, f, w) == |OfQueue(queue, f)| * w
  {
    if queue != [] {
      QueueWeightIs(queue[1..], f, w);
      var k := |OfQueue(queue[1..], f)|;
      assert (k + 1) * w == k * w + w;
    }
  }

  lemma SourceWeight(T: Topology, sent: seq<Message>, s: Net, f: Flow, w: nat)
    requires T.Valid() && PlacesOk(T, sent, s) && FlowOk(T, f)
    ensures SlotWeight(EnteringAt(T, s, Origin(T, f)), f, w) + QueueWeight(QueueAt(NodePhase(T, s), f.src, f.cha), f, w)
         == QueueWeight(QueueAt(s, f.src, f.cha), f, w)
  {
    hide EnteringAt, NodePhase, QueueAt, PlacesOk, Topology.Valid, OfQueue, QueueWeight;
    NodePhaseSource(T, sent, s, f);
    var a, b, c := EnteringAt(T, s, Origin(T, f)), QueueAt(NodePhase(T, s), f.src, f.cha), QueueAt(s, f.src, f.cha);
    QueueWeightIs(b, f, w);
    QueueWeightIs(c, f, w);
    assert |OfSlot(a, f)| + |OfQueue(b, f)| == |OfQueue(c, f)|;
    var k := |OfQueue(b, f)|;
    assert (1 + k) * w == k * w + w;
  }

  /** Flow `f` makes progress in the node phase. */
  ghost predicate NodeProgress(T: Topology, s: Net, f: Flow) {
    Admits(T, s, f, Origin(T, f)) || ProgressAhead(T, s, f, Origin(T, f))
  }

  lemma FlowWeightNodePhase(T: Topology, sent: seq<Message>, s: Net, f: Flow)
    requires T.Valid() && PlacesOk(T, sent, s) && FlowOk(T, f)
    ensures FlowWeight(T, NodePhase(T, s), f) <= FlowWeight(T, s, f)
    ensures NodeProgress(T, s, f) ==> FlowWeight(T, NodePhase(T, s), f) < FlowWeight(T, s, f)
  {
    hide NodePhase, PlacesOk, EnteringAt, SlotWeight, QueueWeight, AheadWeight, Cost, LandingWeight, RouteWeight,
      Admits, ProgressAhead, OnPath, Topology.Valid;
    var o, t := Origin(T, f), Target(T, f);
    SourceNode(T, f);
    NodePhaseRouteWeight(T, sent, s, f);
    OnPathStart(T, o, t);
    AheadWeightNodePhase(T, s, NodePhase(T, s), f, o);
    SourceWeight(T, sent, s, f, Cost(T, T.Dist(o, t)) + 1);
    LandingIsLighter(T, s, f, o);
  }

  // ----- Link phase -----

  /** The link out of `n` moves a packet of the flow from its input to its output. */
  ghost predicate LinkMoves(T: Topology, s: Net, f: Flow, n: NodeId) {
    var l := (n, T.Next(n, Target(T, f)));
    OfSlot(Slot(EdgeAt(s, l).input, f.cha), f) != [] && Slot(EdgeAt(EdgePhase(T, s), l).input, f.cha).None?
  }

  ghost predicate LinkProgress(T: Topology, s: Net, f: Flow, n: NodeId)
    decreases T.Dist(n, Target(T, f))
  {
    var t := Target(T, f);
    n != t && T.Reaches(n, t) && (Closer(T, n, t); LinkMoves(T, s, f, n) || LinkProgress(T, s, f, T.Next(n, t)))
  }

  lemma LinkWeight(T: Topology, sent: seq<Message>, s: Net, f: Flow, n: NodeId, hops: nat)
    requires PlacesOk(T, sent, s) && f.cha < T.Channels()
    ensures var l := (n, T.Next(n, Target(T, f)));
            var w, w' := ShareWeight(T, EdgeAt(s, l), PipeAt(s, n), f, hops),
                         ShareWeight(T, EdgeAt(EdgePhase(T, s), l), PipeAt(EdgePhase(T, s), n), f, hops);
            w' <= w && (LinkMoves(T, s, f, n) ==> w' < w)
  {
    hide Transfer, NodesOk, PortsOk, QueuesOk, NodeOk, RightPlace, PipeWeight, Cost;
    var l := (n, T.Next(n, Target(T, f)));
    if l in s.edges {
      TransferMoves(T.config.linkWidth, s.edges[l], 0, 0);
      assert EdgeOk(T, sent, l, s.edges[l]);
      MovedWeight(s.edges[l], EdgePhase(T, s).edges[l], f, Cost(T, hops) + 1);
    }
  }

  lemma MovedWeight(e: Edge, e': Edge, f: Flow, w: nat)
    requires Moved(e, e') && f.cha < |e.input| == |e.output|
    ensures var before := SlotWeight(Slot(e.output, f.cha), f, w) + SlotWeight(Slot(e.input, f.cha), f, w + 1);
            var after := SlotWeight(Slot(e'.output, f.cha), f, w) + SlotWeight(Slot(e'.input, f.cha), f, w + 1);
            && after <= before
            && (OfSlot(Slot(e.input, f.cha), f) != [] && Slot(e'.input, f.cha).None? ==> after < before)
  {
    assert Slot(e.input, f.cha) == e.input[f.cha] && Slot(e'.input, f.cha) == e'.input[f.cha];
  }

  lemma {:induction false} AheadWeightEdgePhase(T: Topology, sent: seq<Message>, s: Net, f: Flow, n: NodeId)
    requires PlacesOk(T, sent, s) && f.cha < T.Channels()
    ensures AheadWeight(T, EdgePhase(T, s), f, n) <= AheadWeight(T, s, f, n)
    ensures LinkProgress(T, s, f, n) ==> AheadWeight(T, EdgePhase(T, s), f, n) < AheadWeight(T, s, f, n)
    decreases T.Dist(n, Target(T, f))
  {
    hide PlacesOk, EdgePhase, ShareWeight, LinkMoves;
    var t := Target(T, f);
    if n != t && T.Reaches(n, t) {
      Closer(T, n, t);
      AheadWeightEdgePhase(T, sent, s, f, T.Next(n, t));
      LinkWeight(T, sent, s, f, n, T.Dist(T.Next(n, t), t));
    }
  }

  lemma {:induction false} AheadWeightSame(T: Topology, s: Net, s': Net, f: Flow, n: NodeId)
    requires s'.edges == s.edges
    requires forall k :: PipeAt(s', k) == PipeAt(s, k)
    ensures AheadWeight(T, s', f, n) == AheadWeight(T, s, f, n)
    decreases T.Dist(n, Target(T, f))
  {
    hide ShareWeight, PipeAt;
    var t := Target(T, f);
    if n != t && T.Reaches(n, t) {
      Closer(T, n, t);
      AheadWeightSame(T, s, s', f, T.Next(n, t));
    }
  }

  lemma RefreshWeight(T: Topology, s: Net, f: Flow, tick: nat)
    ensures FlowWeight(T, Refresh(T, s).(tick := tick), f) == FlowWeight(T, s, f)
  {
    hide QueueWeight, Cost;
    AheadWeightSame(T, s, Refresh(T, s).(tick := tick), f, Origin(T, f));
  }

  lemma EdgePhaseWeight(T: Topology, sent: seq<Message>, s: Net, f: Flow)
    requires PlacesOk(T, sent, s) && f.cha < T.Channels()
    ensures FlowWeight(T, EdgePhase(T, s), f) <= FlowWeight(T, s, f)
    ensures LinkProgress(T, s, f, Origin(T, f)) ==> FlowWeight(T, EdgePhase(T, s), f) < FlowWeight(T, s, f)
  {
    hide QueueWeight, Cost, PlacesOk, LinkProgress;
    AheadWeightEdgePhase(T, sent, s, f, Origin(T, f));
  }

  /** Flow `f` makes progress in this tick. */
  ghost predicate FlowProgress(T: Topology, s: Net, f: Flow) {
    NodeProgress(T, s, f) || LinkProgress(T, NodePhase(T, s), f, Origin(T, f))
  }

  /** No flow gains weight in a tick, and one that makes progress loses some. */
  lemma FlowWeightTick(T: Topology, sent: seq<Message>, s: Net, f: Flow)
    requires T.Valid() && PlacesOk(T, sent, s) && FlowOk(T, f)
    ensures FlowWeight(T, Tick(T, s), f) <= FlowWeight(T, s, f)
    ensures FlowProgress(T, s, f) ==> FlowWeight(T, Tick(T, s), f) < FlowWeight(T, s, f)
  {
    hide NodePhase, EdgePhase, Refresh, PlacesOk, FlowWeight, NodeProgress, LinkProgress, Topology.Valid;
    FlowWeightNodePhase(T, sent, s, f);
    NodePhasePlaces(T, sent, s);
    EdgePhaseWeight(T, sent, NodePhase(T, s), f);
    RefreshWeight(T, EdgePhase(T, NodePhase(T, s)), f, s.tick + 1);
  }
}
