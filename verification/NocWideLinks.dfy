/**
 Wide links clear themselves: a link that two packets of the largest width fit through never keeps a packet back. So
 the 32-bit byte sum of a link never wraps in a run, and every link keeps its budget, whatever its width.
 */
module NocWideLinks {
  import opened Arith
  import opened Wrappers
  import opened RouteTable
  import opened NocState
  import opened NocInvariant
  import opened NocNodeStep
  import opened NocFlow
  import opened NocSystem
  import opened NocTick
  import opened NocEndpoints
  import opened NocRuns
  import opened NocTiming
  import opened NocBandwidth

  const WIDE := 2 * MAX_WIDTH

  // ----- The invariant -----

  /** Packets that still wait have different waits, all of them shorter than `bound`. */
  ghost predicate Spaced(pipe: seq<Piped>, bound: nat) {
    && (forall i :: 0 <= i < |pipe| ==> pipe[i].remain == 0 || pipe[i].remain < bound)
    && (forall i, j :: 0 <= i < j < |pipe| && pipe[i].remain > 0 ==> pipe[i].remain < pipe[j].remain)
  }

  /** A packet that waits no longer and has nothing in front of it on its link. */
  predicate Fresh(T: Topology, s: Net, n: NodeId, e: Piped) {
    e.remain == 0 && Slot(EdgeAt(s, (n, T.Next(n, e.pack.tgt))).output, e.pack.cha).None?
  }

  ghost predicate OneFresh(T: Topology, s: Net, n: NodeId, pipe: seq<Piped>) {
    forall i, j :: 0 <= i < j < |pipe| ==> !(Fresh(T, s, n, pipe[i]) && Fresh(T, s, n, pipe[j]))
  }

  ghost predicate NoneFresh(T: Topology, s: Net, n: NodeId, pipe: seq<Piped>) {
    forall i :: 0 <= i < |pipe| ==> !Fresh(T, s, n, pipe[i])
  }

  /**
   At most one packet of a node is about to leave for the first time; without a wait that is the one that comes in.
   */
  ghost predicate NodeWide(T: Topology, s: Net, n: NodeId, pipe: seq<Piped>) {
    && Spaced(pipe, T.config.latency) && OneFresh(T, s, n, pipe)
    && (T.config.latency == 0 ==> NoneFresh(T, s, n, pipe))
  }

  /** No packet stands on a link behind a free output of its channel. */
  ghost predicate Clear(e: Edge) {
    forall c :: 0 <= c < |e.input| ==> !Ready(e, c)
  }

  ghost predicate WideOk(T: Topology, s: Net) {
    && (forall n {:trigger s.nodes[n]} :: n in s.nodes ==> NodeWide(T, s, n, s.nodes[n].pipeline))
    && (forall l {:trigger s.edges[l]} :: l in s.edges ==> Clear(s.edges[l]))
  }

  // ----- The release pass -----

  /** A packet that has just finished waiting, and whose way is free after the pass. */
  predicate Young(T: Topology, n: NodeId, e: Piped, tx: map<NodeId, Slots>) {
    e.remain == 0 && SlotFree(tx, T.Next(n, e.pack.tgt), e.pack.cha)
  }

  ghost predicate OneYoung(T: Topology, n: NodeId, pipe: seq<Piped>, tx: map<NodeId, Slots>) {
    forall i, j :: 0 <= i < j < |pipe| ==> !(Young(T, n, pipe[i], tx) && Young(T, n, pipe[j], tx))
  }

  ghost predicate NoneYoung(T: Topology, n: NodeId, pipe: seq<Piped>, tx: map<NodeId, Slots>) {
    forall i :: 0 <= i < |pipe| ==> !Young(T, n, pipe[i], tx)
  }

  ghost predicate Over(pipe: seq<Piped>, low: nat) {
    forall i :: 0 <= i < |pipe| ==> pipe[i].remain > low
  }

  lemma SpacedTail(pipe: seq<Piped>, bound: nat)
    requires Spaced(pipe, bound) && pipe != []
    ensures Spaced(pipe[1..], bound) && (pipe[0].remain > 0 ==> Over(pipe[1..], pipe[0].remain))
  {
    var rest := pipe[1..];
    forall i | 0 <= i < |rest| ensures rest[i] == pipe[i + 1] {
    }
    forall i, j | 0 <= i < j < |rest| && rest[i].remain > 0 ensures rest[i].remain < rest[j].remain {
      assert rest[i] == pipe[i + 1] && rest[j] == pipe[j + 1];
    }
  }

  /** While all packets wait, the pass takes one cycle off each. */
  lemma {:induction false} ReleaseOver(T: Topology, n: NodeId, pipe: seq<Piped>, tx: map<NodeId, Slots>, low: nat)
    requires Over(pipe, low)
    ensures low > 0 ==> Over(Release(T, n, pipe, tx).0, low - 1)
    decreases |pipe|
  {
    if pipe != [] && low > 0 {
      assert Over(pipe[1..], low);
      ReleaseOver(T, n, pipe[1..], Filled(T, n, pipe[0], tx), low);
      var kept := Release(T, n, pipe[1..], Filled(T, n, pipe[0], tx)).0;
      OverCons(Aged(pipe[0]), kept, low - 1);
    }
  }

  lemma OverCons(e: Piped, pipe: seq<Piped>, low: nat)
    requires e.remain > low && Over(pipe, low)
    ensures Over([e] + pipe, low)
  {
  }

  lemma SpacedCons(e: Piped, pipe: seq<Piped>, bound: nat)
    requires Spaced(pipe, bound) && (e.remain == 0 || e.remain < bound) && (e.remain > 0 ==> Over(pipe, e.remain))
    ensures Spaced([e] + pipe, bound)
  {
    var all := [e] + pipe;
    forall i, j | 0 <= i < j < |all| && all[i].remain > 0 ensures all[i].remain < all[j].remain {
      assert all[j] == pipe[j - 1] && (i > 0 ==> all[i] == pipe[i - 1]);
    }
  }

  lemma {:induction false} ReleaseSpaced(T: Topology, n: NodeId, pipe: seq<Piped>, tx: map<NodeId, Slots>, bound: nat)
    requires Spaced(pipe, bound + 1)
    ensures Spaced(Release(T, n, pipe, tx).0, bound)
    decreases |pipe|
  {
    hide Spaced;
    if pipe == [] {
      NothingSpaced(bound);
    } else {
      var head, tx1 := pipe[0], Filled(T, n, pipe[0], tx);
      SpacedTail(pipe, bound + 1);
      HeadBound(pipe, bound + 1);
      ReleaseSpaced(T, n, pipe[1..], tx1, bound);
      if head.remain > 0 {
        ReleaseOver(T, n, pipe[1..], tx1, head.remain);
      }
      SpacedHead(Aged(head), Release(T, n, pipe[1..], tx1).0, bound);
    }
  }

  lemma NothingSpaced(bound: nat)
    ensures Spaced([], bound)
  {
  }

  lemma HeadBound(pipe: seq<Piped>, bound: nat)
    requires Spaced(pipe, bound) && pipe != []
    ensures pipe[0].remain == 0 || pipe[0].remain < bound
  {
  }

  lemma SpacedHead(e: Piped, pipe: seq<Piped>, bound: nat)
    ensures Spaced(pipe, bound) && (e.remain == 0 || e.remain < bound) && (e.remain > 0 ==> Over(pipe, e.remain)) ==>
              Spaced([e] + pipe, bound)
  {
    if Spaced(pipe, bound) && (e.remain == 0 || e.remain < bound) && (e.remain > 0 ==> Over(pipe, e.remain)) {
      SpacedCons(e, pipe, bound);
    }
  }

  /** What stays although it waits no longer has been blocked, or it is the one packet whose wait ends with the pass. */
  lemma {:induction false} ReleaseYoung(T: Topology, n: NodeId, pipe: seq<Piped>, tx: map<NodeId, Slots>, bound: nat)
    requires Spaced(pipe, bound)
    ensures var r := Release(T, n, pipe, tx); OneYoung(T, n, r.0, r.1)
    ensures var r := Release(T, n, pipe, tx); bound <= 1 || (pipe != [] && Over(pipe, 1)) ==> NoneYoung(T, n, r.0, r.1)
    decreases |pipe|
  {
    hide Spaced, Young;
    if pipe != [] {
      var head, tx1 := pipe[0], Filled(T, n, pipe[0], tx);
      var r := Release(T, n, pipe[1..], tx1);
      SpacedTail(pipe, bound);
      HeadBound(pipe, bound);
      ReleaseYoung(T, n, pipe[1..], tx1, bound);
      if !Leaves(T, n, head, tx) {
        if head.remain == 0 {
          Blocked(T, n, head, tx, pipe[1..]);
        } else {
          ReleaseOver(T, n, pipe[1..], tx1, head.remain);
          NotYoung(T, n, r.0, r.1, head.remain - 1);
          NotYoungYet(T, n, Aged(head), r.1);
        }
        YoungCons(T, n, Aged(head), r.0, r.1);
      } else {
        assert pipe[0].remain == 0;
      }
    }
  }

  /** A packet that is blocked in the pass stays blocked to its end. */
  lemma Blocked(T: Topology, n: NodeId, e: Piped, tx: map<NodeId, Slots>, rest: seq<Piped>)
    requires !Leaves(T, n, e, tx) && e.remain == 0
    ensures !Young(T, n, Aged(e), Release(T, n, rest, tx).1)
  {
    ReleaseFills(T, n, rest, tx);
  }

  lemma NotYoung(T: Topology, n: NodeId, pipe: seq<Piped>, tx: map<NodeId, Slots>, low: nat)
    ensures Over(pipe, low) ==> NoneYoung(T, n, pipe, tx)
  {
  }

  lemma NotYoungYet(T: Topology, n: NodeId, e: Piped, tx: map<NodeId, Slots>)
    ensures e.remain > 0 ==> !Young(T, n, e, tx)
  {
  }

  lemma YoungCons(T: Topology, n: NodeId, e: Piped, pipe: seq<Piped>, tx: map<NodeId, Slots>)
    ensures OneYoung(T, n, pipe, tx) && (!Young(T, n, e, tx) || NoneYoung(T, n, pipe, tx)) ==>
              OneYoung(T, n, [e] + pipe, tx)
    ensures NoneYoung(T, n, pipe, tx) && !Young(T, n, e, tx) ==> NoneYoung(T, n, [e] + pipe, tx)
  {
    hide Young;
    var all := [e] + pipe;
    if OneYoung(T, n, pipe, tx) && (!Young(T, n, e, tx) || NoneYoung(T, n, pipe, tx)) {
      forall i, j | 0 <= i < j < |all| ensures !(Young(T, n, all[i], tx) && Young(T, n, all[j], tx)) {
        assert all[j] == pipe[j - 1] && (i > 0 ==> all[i] == pipe[i - 1]);
      }
    }
  }

  /** What the pass puts on a link waited no longer. */
  lemma {:induction false} ReleaseFrom(T: Topology, n: NodeId, pipe: seq<Piped>, tx: map<NodeId, Slots>, m: NodeId,
                                       c: nat)
    returns (i: nat)
    requires SlotFree(tx, m, c) && !SlotFree(Release(T, n, pipe, tx).1, m, c)
    ensures i < |pipe| && pipe[i].remain == 0 && T.Next(n, pipe[i].pack.tgt) == m && pipe[i].pack.cha == c
    decreases |pipe|
  {
    var tx1 := Filled(T, n, pipe[0], tx);
    if SlotFree(tx1, m, c) {
      i := ReleaseFrom(T, n, pipe[1..], tx1, m, c);
      i := i + 1;
    } else {
      i := 0;
    }
  }

  // ----- Which channels of a link can be ready -----

  lemma SpacedIn(pipe: seq<Piped>, e: Piped)
    requires Spaced(pipe, e.remain)
    ensures Spaced(pipe + [e], e.remain + 1)
  {
  }

  /** The packet a node admits makes no second fresh one. */
  lemma PipeInWide(T: Topology, s: Net, n: NodeId, v: View)
    requires NodeWide(T, s, n, v.node.pipeline)
    ensures Spaced(PipeIn(T, n, v), T.config.latency + 1) && OneFresh(T, s, n, PipeIn(T, n, v))
  {
    hide Entering, Fresh;
    var pipe, all := v.node.pipeline, PipeIn(T, n, v);
    if all != pipe {
      SpacedIn(pipe, all[|pipe|]);
      NotFreshYet(T, s, n, all[|pipe|]);
    }
  }

  lemma NotFreshYet(T: Topology, s: Net, n: NodeId, e: Piped)
    ensures e.remain > 0 ==> !Fresh(T, s, n, e)
  {
  }

  /** The channel whose packet the far node takes off the link. */
  function TakenFrom(T: Topology, s: Net, l: Link): nat {
    if l.1 in s.nodes && Taken(T, l.1, GetView(T, s, l.1)).FromLink? then Taken(T, l.1, GetView(T, s, l.1)).c else 0
  }

  /** The channel of the fresh packet of the near node, if there is one. */
  ghost function FreshFrom(T: Topology, s: Net, n: NodeId, pipe: seq<Piped>): nat {
    if exists i :: 0 <= i < |pipe| && Fresh(T, s, n, pipe[i])
    then var i :| 0 <= i < |pipe| && Fresh(T, s, n, pipe[i]); pipe[i].pack.cha
    else 0
  }

  lemma FreshIs(T: Topology, s: Net, n: NodeId, pipe: seq<Piped>, i: nat)
    requires OneFresh(T, s, n, pipe) && i < |pipe| && Fresh(T, s, n, pipe[i])
    ensures pipe[i].pack.cha == FreshFrom(T, s, n, pipe)
  {
    hide Fresh;
  }

  /** A link register that the far node leaves alone is as it was. */
  lemma OutputKept(T: Topology, sent: seq<Message>, s: Net, l: Link, c: nat)
    requires T.Valid() && PlacesOk(T, sent, s) && l in s.edges
    requires c < |EdgeAt(NodePhase(T, s), l).output| && EdgeAt(NodePhase(T, s), l).output[c].None?
    ensures c < |s.edges[l].output| && (c != TakenFrom(T, s, l) ==> s.edges[l].output[c].None?)
  {
    hide PlacesOk, Topology.Valid, GetView, NodePhase, Taken;
    ReceiverAfter(T, sent, s, l.0, l.1);
    LinkEndNodes(T, sent, s, l);
    ViewLink(T, s, l);
    TakenLink(T, l.1, GetView(T, s, l.1), l.0, c);
  }

  lemma TakenLink(T: Topology, n: NodeId, v: View, k: NodeId, c: nat)
    requires k in v.rx && k in RxOut(T, n, v) && c < |RxOut(T, n, v)[k]| && RxOut(T, n, v)[k][c].None?
    ensures c < |v.rx[k]| && (v.rx[k][c].None? || (Taken(T, n, v).FromLink? && Taken(T, n, v).c == c))
  {
    hide Arbitrate;
  }

  /** Of all channels of a link, only the one just freed and the one of the fresh packet can be ready to move. */
  lemma ReadyFew(T: Topology, sent: seq<Message>, s: Net, l: Link, c: nat)
    requires T.Valid() && PlacesOk(T, sent, s) && WideOk(T, s) && l in s.edges
    requires Ready(EdgeAt(NodePhase(T, s), l), c) && c != TakenFrom(T, s, l)
    ensures l.0 in s.nodes && c == FreshFrom(T, s, l.0, PipeIn(T, l.0, GetView(T, s, l.0)))
  {
    hide PlacesOk, Topology.Valid, GetView, NodePhase, PipeIn, NodeWide, OneFresh, FreshFrom, Release, TakenFrom,
      Spaced;
    var n, m := l.0, l.1;
    SenderAfter(T, sent, s, n, m);
    var v := GetView(T, s, n);
    ViewNode(T, s, n);
    OutputKept(T, sent, s, l, c);
    LinkEndNodes(T, sent, s, l);
    ViewLink(T, s, l);
    assert NodeWide(T, s, n, s.nodes[n].pipeline) && Clear(s.edges[l]);
    assert !Ready(s.edges[l], c);
    PipeInWide(T, s, n, v);
    var i := ReleaseFrom(T, n, PipeIn(T, n, v), v.tx, m, c);
    FreshIs(T, s, n, PipeIn(T, n, v), i);
  }

  // ----- A link that fits them both moves them both -----

  /** The bytes that are ready to move, from channel `c` on. */
  function ReadyBytes(e: Edge, c: nat): nat
    decreases |e.input| - c
  {
    if c >= |e.input| then 0 else (if Ready(e, c) then Size(e, c) else 0) + ReadyBytes(e, c + 1)
  }

  lemma {:induction false} TwoReady(e: Edge, c: nat, a: nat, b: nat)
    requires Sized(e) && forall d :: c <= d < |e.input| && Ready(e, d) ==> d == a || d == b
    ensures ReadyBytes(e, c) <= (if c <= a then MAX_WIDTH else 0) + (if c <= b then MAX_WIDTH else 0)
    decreases |e.input| - c
  {
    if c < |e.input| {
      TwoReady(e, c + 1, a, b);
    }
  }

  lemma {:induction false} SameReady(e: Edge, f: Edge, c: nat)
    requires |f.input| == |e.input| && |f.output| == |e.output|
    requires forall k :: c <= k < |e.input| ==> f.input[k] == e.input[k]
    requires forall k :: c <= k < |e.output| ==> f.output[k] == e.output[k]
    ensures ReadyBytes(e, c) == ReadyBytes(f, c)
    decreases |e.input| - c
  {
    if c < |e.input| {
      SameReady(e, f, c + 1);
    }
  }

  lemma {:induction false} NothingReady(e: Edge, c: nat, d: nat)
    requires Sized(e) && ReadyBytes(e, c) == 0 && c <= d
    ensures !Ready(e, d)
    decreases |e.input| - c
  {
    if c < d && c < |e.input| {
      NothingReady(e, c + 1, d);
    }
  }

  /** Without wrapping and within the budget every ready packet moves. */
  lemma {:induction false} AllMove(linkWidth: nat, e: Edge, c: nat, total: nat, d: nat)
    requires Sized(e) && total + ReadyBytes(e, c) <= linkWidth < WORD32 && c <= d
    ensures !Ready(Transfer(linkWidth, e, c, total), d) && !Overflows(linkWidth, e, c, total)
    decreases |e.input| - c
  {
    hide Moved, Transfer, Overflows;
    BudgetStep(linkWidth, e, c, total);
    if c >= |e.input| || total >= linkWidth {
      NothingReady(e, c, d);
    } else if Passed(linkWidth, e, c, total) {
      PassedOver(linkWidth, e, c, total);
      AllMove(linkWidth, e, c + 1, total, if d > c then d else c + 1);
      Untouched(linkWidth, e, c, total);
    } else {
      var f, sum := Edge(e.input[c := None], e.output[c := e.input[c]]), total + Size(e, c);
      TakenAlong(linkWidth, e, c, total);
      SameReady(e, f, c + 1);
      AllMove(linkWidth, f, c + 1, sum, if d > c then d else c + 1);
      SameOverflow(linkWidth, e, f, c + 1, sum);
      Untouched(linkWidth, f, c, sum);
    }
  }

  lemma Untouched(linkWidth: nat, e: Edge, c: nat, total: nat)
    requires c < |e.input| == |e.output|
    ensures Ready(Transfer(linkWidth, e, c + 1, total), c) == Ready(e, c)
  {
    TransferMoves(linkWidth, e, c + 1, total);
  }

  // ----- A tick -----

  /** A link that keeps nothing back: whatever was on its inputs is on its outputs, or stays behind what was there. */
  ghost predicate Emptied(linkWidth: nat, e: Edge, e': Edge) {
    && !Overflows(linkWidth, e, 0, 0) && Clear(e') && |e.input| == |e.output| == |e'.input| == |e'.output|
    && forall c :: 0 <= c < |e.input| && e.input[c].Some? ==> e'.output[c].Some?
  }

  lemma LinkEmpties(T: Topology, sent: seq<Message>, s: Net, l: Link)
    requires T.Valid() && PlacesOk(T, sent, s) && WideOk(T, s) && l in s.edges && WIDE <= T.config.linkWidth
    ensures l in Tick(T, s).edges && Emptied(T.config.linkWidth, EdgeAt(NodePhase(T, s), l), EdgeAt(Tick(T, s), l))
  {
    hide PlacesOk, Topology.Valid, WideOk, NodePhase, Tick, Transfer, Sized, Overflows, TakenFrom, FreshFrom, Ready;
    NodePhasePlaces(T, sent, s);
    TickEdge(T, s, l);
    LinkEndNodes(T, sent, NodePhase(T, s), l);
    LinkSized(T, sent, NodePhase(T, s), l);
    LinkUsable(T);
    var w, e := T.config.linkWidth, EdgeAt(NodePhase(T, s), l);
    ReadyFits(T, sent, s, l);
    AllMove(w, e, 0, 0, 0);
    AllClear(w, e);
    TransferMoves(w, e, 0, 0);
    ClearMoved(e, Transfer(w, e, 0, 0));
  }

  lemma ReadyFits(T: Topology, sent: seq<Message>, s: Net, l: Link)
    requires T.Valid() && PlacesOk(T, sent, s) && WideOk(T, s) && l in s.edges && Sized(EdgeAt(NodePhase(T, s), l))
    ensures ReadyBytes(EdgeAt(NodePhase(T, s), l), 0) <= WIDE
  {
    hide PlacesOk, Topology.Valid, WideOk, NodePhase, Sized, TakenFrom, FreshFrom, Ready, ReadyBytes, PipeIn;
    var e, a := EdgeAt(NodePhase(T, s), l), TakenFrom(T, s, l);
    LinkEndNodes(T, sent, s, l);
    var b := FreshFrom(T, s, l.0, PipeIn(T, l.0, GetView(T, s, l.0)));
    forall d | 0 <= d < |e.input| && Ready(e, d) ensures d == a || d == b {
      if d != a {
        ReadyFew(T, sent, s, l, d);
      }
    }
    TwoReady(e, 0, a, b);
  }

  lemma AllClear(linkWidth: nat, e: Edge)
    requires Sized(e) && ReadyBytes(e, 0) <= linkWidth < WORD32
    ensures Clear(Transfer(linkWidth, e, 0, 0))
  {
    hide Transfer, Ready;
    var e' := Transfer(linkWidth, e, 0, 0);
    forall d | 0 <= d < |e'.input| ensures !Ready(e', d) {
      AllMove(linkWidth, e, 0, 0, d);
    }
    TransferMoves(linkWidth, e, 0, 0);
  }

  lemma ClearMoved(e: Edge, e': Edge)
    requires |e.input| == |e.output|
    ensures Moved(e, e') && Clear(e') ==> forall c :: 0 <= c < |e.input| && e.input[c].Some? ==> e'.output[c].Some?
  {
    if Moved(e, e') && Clear(e') {
      forall c | 0 <= c < |e.input| && e.input[c].Some? ensures e'.output[c].Some? {
        assert !Ready(e', c);
      }
    }
  }

  /** After a tick a packet of a node is fresh only if its wait has just ended. */
  lemma FreshIsYoung(T: Topology, sent: seq<Message>, s: Net, n: NodeId, e: Piped)
    requires T.Valid() && PlacesOk(T, sent, s) && WideOk(T, s) && WIDE <= T.config.linkWidth
    requires n in s.nodes && StaysOk(T, sent, n, e)
    ensures Fresh(T, Tick(T, s), n, e) ==>
              Young(T, n, e, Release(T, n, PipeIn(T, n, GetView(T, s, n)), GetView(T, s, n).tx).1)
  {
    hide PlacesOk, Topology.Valid, WideOk, NodePhase, Tick, Release, PipeIn, GetView, OnPath, Overflows, Clear;
    var m := T.Next(n, e.pack.tgt);
    WiredNodes(T, sent, s);
    PacketTargetNode(T, sent, n, e.pack);
    Hop(T, n, e.pack.tgt);
    SenderAfter(T, sent, s, n, m);
    NodePhasePlaces(T, sent, s);
    PhaseLink(T, sent, s, (n, m));
    LinkEmpties(T, sent, s, (n, m));
  }

  lemma PhaseLink(T: Topology, sent: seq<Message>, s: Net, l: Link)
    requires PlacesOk(T, sent, NodePhase(T, s)) && l in s.edges
    ensures |EdgeAt(NodePhase(T, s), l).input| == T.Channels()
  {
    hide PlacesOk, NodePhase;
    TickEdge(T, s, l);
    LinkEndNodes(T, sent, NodePhase(T, s), l);
  }

  lemma TickNodeWide(T: Topology, sent: seq<Message>, s: Net, n: NodeId)
    requires T.Valid() && PlacesOk(T, sent, s) && WideOk(T, s) && WIDE <= T.config.linkWidth && n in s.nodes
    ensures n in Tick(T, s).nodes && NodeWide(T, Tick(T, s), n, Tick(T, s).nodes[n].pipeline)
  {
    hide PlacesOk, Topology.Valid, Tick, Release, PipeIn, GetView, ProcessNode, Spaced, Fresh, Young, StaysOk;
    var v := GetView(T, s, n);
    var r := Release(T, n, PipeIn(T, n, v), v.tx);
    ViewNode(T, s, n);
    TickNodeIs(T, s, n);
    SamePipe(T, ProcessNode(T, n, v).node);
    ProcessedSender(T, n, v);
    assert NodeWide(T, s, n, s.nodes[n].pipeline);
    PipeInWide(T, s, n, v);
    ReleaseSpaced(T, n, PipeIn(T, n, v), v.tx, T.config.latency);
    ReleaseYoung(T, n, PipeIn(T, n, v), v.tx, T.config.latency + 1);
    WiredNodes(T, sent, s);
    ViewIsOk(T, sent, s, n);
    StepPipeOk(T, sent, n, v);
    forall i | 0 <= i < |r.0| ensures Fresh(T, Tick(T, s), n, r.0[i]) ==> Young(T, n, r.0[i], r.1) {
      assert StaysOk(T, sent, n, r.0[i]);
      FreshIsYoung(T, sent, s, n, r.0[i]);
    }
  }

  lemma SamePipe(T: Topology, node: Node)
    ensures UpdateCongestion(T, node).pipeline == node.pipeline
  {
  }

  lemma TickWide(T: Topology, sent: seq<Message>, s: Net)
    requires T.Valid() && PlacesOk(T, sent, s) && WideOk(T, s) && WIDE <= T.config.linkWidth
    ensures WideOk(T, Tick(T, s))
  {
    hide PlacesOk, Topology.Valid, Tick, NodeWide, Clear, Overflows;
    var s' := Tick(T, s);
    TickKeys(T, s);
    forall n | n in s'.nodes ensures NodeWide(T, s', n, s'.nodes[n].pipeline) {
      TickNodeWide(T, sent, s, n);
    }
    forall l | l in s'.edges ensures Clear(s'.edges[l]) {
      LinkEmpties(T, sent, s, l);
    }
  }

  // ----- All runs -----

  /** What a run keeps if links are wide. */
  ghost predicate WideState(T: Topology, st: State) {
    Good(T, st) && (WIDE <= T.config.linkWidth ==> WideOk(T, st.net))
  }

  lemma SameWide(T: Topology, s: Net, s': Net)
    requires s'.nodes == s.nodes && s'.edges == s.edges && WideOk(T, s)
    ensures WideOk(T, s')
  {
    hide Spaced, Clear;
    forall n | n in s'.nodes ensures NodeWide(T, s', n, s'.nodes[n].pipeline) {
      assert NodeWide(T, s, n, s.nodes[n].pipeline);
      SameFresh(T, s, s', n);
    }
    forall l | l in s'.edges ensures Clear(s'.edges[l]) {
      assert Clear(s.edges[l]);
    }
  }

  lemma SameFresh(T: Topology, s: Net, s': Net, n: NodeId)
    requires s'.edges == s.edges
    ensures forall e :: Fresh(T, s', n, e) == Fresh(T, s, n, e)
  {
  }

  lemma InitialWide(T: Topology)
    requires T.Valid()
    ensures WideState(T, Initial(T))
  {
    hide Topology.Valid, Good;
    InitialGood(T);
  }

  lemma StepWide(T: Topology, st: State, op: Op)
    requires T.Valid() && WideState(T, st) && OpFits(T, st, op) && Wired(T, st.net)
    ensures WideState(T, Step(T, st, op))
  {
    hide Inv, WideOk, Tick, Accept, TakeFront, Topology.Valid, Acceptable, SendOutcome, CanRecv, PlacesOk;
    StepKeeps(T, st, op);
    InvPlaces(T, st.hist, st.net);
    if WIDE <= T.config.linkWidth {
      if op.TickOp? {
        TickWide(T, st.hist.sent, st.net);
      } else if Accepted(T, st, op) {
        AcceptedIsAcceptable(T, st, op);
        AcceptableOk(T, st.hist, st.net, MessageOf(st, op));
        AcceptFrame(T, st.net, MessageOf(st, op));
        SameWide(T, st.net, Accept(T, st.net, MessageOf(st, op)));
      } else if Handing(T, st, op) {
        TakeFrame(T, st.hist.sent, st.net, op.port, op.cha);
        SameWide(T, st.net, TakeFront(T, st.net, op.port, op.cha));
      }
    }
  }

  lemma {:induction false} RunWide(T: Topology, st: State, ops: seq<Op>)
    requires T.Valid() && WideState(T, st) && RunFits(T, st, ops)
    ensures WideState(T, Run(T, st, ops))
    decreases |ops|
  {
    hide Inv, WideOk, Step, OpFits, Topology.Valid;
    if ops != [] {
      InvPlaces(T, st.hist, st.net);
      StepKeeps(T, st, ops[0]);
      StepWide(T, st, ops[0]);
      RunWide(T, Step(T, st, ops[0]), ops[1..]);
    }
  }

  /** Every link keeps its budget: narrow ones because their sum cannot wrap, wide ones because they are never full. */
  lemma TickBudget(T: Topology, st: State, l: Link)
    requires T.Valid() && WideState(T, st) && l in st.net.edges
    ensures WithinBudget(T.config.linkWidth, EdgeAt(NodePhase(T, st.net), l), EdgeAt(Tick(T, st.net), l))
    ensures WIDE <= T.config.linkWidth ==> Clear(EdgeAt(Tick(T, st.net), l))
  {
    hide Inv, WideOk, Tick, NodePhase, PlacesOk, Topology.Valid, Sized, Overflows, WithinBudget, Clear, Transfer;
    var sent, s, w := st.hist.sent, st.net, T.config.linkWidth;
    InvPlaces(T, st.hist, s);
    NodePhasePlaces(T, sent, s);
    TickEdge(T, s, l);
    LinkSized(T, sent, NodePhase(T, s), l);
    LinkUsable(T);
    if WIDE <= w {
      LinkEmpties(T, sent, s, l);
    } else {
      NarrowEnough(w, EdgeAt(NodePhase(T, s), l), 0, 0);
    }
    KeepsBudget(w, EdgeAt(NodePhase(T, s), l));
  }
}
