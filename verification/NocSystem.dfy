/** The invariant of the whole bus, and its preservation by a tick. */
module NocSystem {
  import opened Wrappers
  import opened RouteTable
  import opened NocState
  import opened NocInvariant
  import opened NocNodeStep
  import opened NocFlow
  import opened NocHistory
  import opened NocReassembly

  // ----- The invariant -----

  /** How many packets of each message have arrived. */
  ghost function ArrivedSeq(T: Topology, sent: seq<Message>, s: Net): (arr: seq<nat>)
    requires SentOk(T, sent)
    ensures |arr| == |sent| && forall x :: 0 <= x < |sent| ==> arr[x] == Arrived(T, sent, s, x)
    ensures CountsOk(T, sent, arr)
  {
    seq(|sent|, x requires 0 <= x < |sent| => Arrived(T, sent, s, x))
  }

  ghost predicate FlowsOk(T: Topology, sent: seq<Message>, s: Net) {
    forall f :: FlowOk(T, f) ==> InOrder(T, sent, s, f)
  }

  ghost predicate ListsOk(T: Topology, sent: seq<Message>, arr: seq<nat>, s: Net) {
    forall n {:trigger s.nodes[n]} :: n in s.nodes ==> OrderOk(T, sent, arr, n, s.nodes[n].orderBuf)
  }

  ghost predicate BuffersOk(T: Topology, sent: seq<Message>, s: Net) {
    forall q, c {:trigger RecvAt(s, q, c)} :: q in s.ports && 0 <= c < T.Channels() ==>
                                                Whole(T, sent, q, c, RecvAt(s, q, c))
  }

  ghost predicate AllDone(T: Topology, h: History, arr: seq<nat>, s: Net) {
    forall f {:trigger FlowOk(T, f)} :: FlowOk(T, f) ==> DoneOk(T, h, arr, ReadyIds(RecvAt(s, f.dst, f.cha)), f)
  }

  /** With congestion control, the counter of a node is the length of its pipeline and within the limit. */
  ghost predicate CounterOk(T: Topology, node: Node) {
    if T.config.congestion.enabled then node.buffered == |node.pipeline| <= T.config.congestion.limit
    else node.buffered == 0
  }

  ghost predicate CountersOk(T: Topology, s: Net) {
    forall n {:trigger s.nodes[n]} :: n in s.nodes ==> CounterOk(T, s.nodes[n])
  }

  /** Accepted and not yet received messages for one port and channel, among the first `n`. */
  function Outstanding(h: History, q: PortId, c: nat, n: nat): nat
    requires n <= |h.sent|
  {
    if n == 0 then 0
    else
      var m := h.sent[n - 1];
      Outstanding(h, q, c, n - 1) + if m.dst == q && m.cha == c && n - 1 !in h.received then 1 else 0
  }

  /**
   With bounded reception, the reservations of a port and channel count its outstanding messages and stay within the
   slots.
   */
  ghost predicate CreditOk(T: Topology, h: History, s: Net) {
    forall q, c {:trigger s.ports[q].reserved[c]} ::
      q in s.ports && 0 <= c < |s.ports[q].reserved| ==>
        if T.config.slots > 0 then s.ports[q].reserved[c] == Outstanding(h, q, c, |h.sent|) <= T.config.slots
        else s.ports[q].reserved[c] == 0
  }

  ghost predicate ReceivedOk(h: History) {
    forall i :: 0 <= i < |h.received| ==> h.received[i] < |h.sent|
  }

  ghost predicate Inv(T: Topology, h: History, s: Net) {
    && SentOk(T, h.sent) && ReceivedOk(h) && s.nextXmt == |h.sent|
    && PlacesOk(T, h.sent, s) && FlowsOk(T, h.sent, s)
    && ListsOk(T, h.sent, ArrivedSeq(T, h.sent, s), s)
    && BuffersOk(T, h.sent, s) && AllDone(T, h, ArrivedSeq(T, h.sent, s), s)
    && CountersOk(T, s) && CreditOk(T, h, s)
  }

  lemma InvPlaces(T: Topology, h: History, s: Net)
    requires Inv(T, h, s)
    ensures PlacesOk(T, h.sent, s) && Wired(T, s) && s.nodes.Keys == T.nodes
  {
  }

  lemma CounterIs(T: Topology, h: History, s: Net, n: NodeId)
    requires Inv(T, h, s) && n in s.nodes
    ensures CounterOk(T, s.nodes[n])
  {
    hide PlacesOk, FlowsOk, ListsOk, BuffersOk, AllDone, CreditOk, ArrivedSeq;
  }

  // ----- A tick: arrivals -----

  /** The packet node `n` hands to one of its ports this tick. */
  function DeliveredAt(T: Topology, s: Net, n: NodeId): Option<Packet> {
    var p := EnteringAt(T, s, n);
    if p.Some? && p.value.tgt == n then p else None
  }

  lemma TickArrivals(T: Topology, sent: seq<Message>, s: Net, f: Flow)
    requires T.Valid() && SentOk(T, sent) && PlacesOk(T, sent, s) && FlowOk(T, f) && InOrder(T, sent, s, f)
    ensures InOrder(T, sent, Tick(T, s), f)
    ensures var p, a := EnteringAt(T, s, Target(T, f)), Arrivals(T, sent, s, f);
            if p.Some? && FlowOf(p.value) == f
            then a < |FlowPackets(T, sent, f)| && FlowPackets(T, sent, f)[a] == p.value
                 && Arrivals(T, sent, Tick(T, s), f) == a + 1
            else Arrivals(T, sent, Tick(T, s), f) == a
  {
    hide Transit, EnteringAt, Tick, PlacesOk, FlowPackets;
    TickTransit(T, sent, s, f);
    var p, a, all := EnteringAt(T, s, Target(T, f)), Arrivals(T, sent, s, f), FlowPackets(T, sent, f);
    if p.Some? && FlowOf(p.value) == f {
      assert Transit(T, s, f)[0] == p.value && Transit(T, s, f)[1..] == Transit(T, Tick(T, s), f);
      assert all[a..][0] == all[a] && all[a..][1..] == all[a + 1..];
    } else {
      assert Transit(T, s, f) == Transit(T, Tick(T, s), f);
    }
  }

  /** A delivery is the next packet of its message; no other message of a port at that node makes progress. */
  lemma TickArrived(T: Topology, sent: seq<Message>, s: Net, x: nat)
    requires T.Valid() && SentOk(T, sent) && PlacesOk(T, sent, s) && FlowsOk(T, sent, s) && x < |sent|
    ensures var p := DeliveredAt(T, s, T.NodeOf(sent[x].dst));
            if p.Some? && p.value.xmt == x
            then p.value.idx == Arrived(T, sent, s, x) && Arrived(T, sent, Tick(T, s), x) == p.value.idx + 1
            else Arrived(T, sent, Tick(T, s), x) == Arrived(T, sent, s, x)
  {
    hide Transit, EnteringAt, Tick, PlacesOk, FlowPackets, FlowsOk, InOrder, Arrivals, ArrivedOf, Topology.Valid;
    var f := MessageFlow(sent[x]);
    FlowInOrder(T, sent, s, f);
    TickArrivals(T, sent, s, f);
    var p := EnteringAt(T, s, Target(T, f));
    if p.Some? {
      DeliveredGenuine(T, sent, s, Target(T, f));
      if FlowOf(p.value) == f {
        NextArrival(T, sent, f, Arrivals(T, sent, s, f));
      }
    }
  }

  lemma FlowInOrder(T: Topology, sent: seq<Message>, s: Net, f: Flow)
    requires FlowsOk(T, sent, s) && FlowOk(T, f)
    ensures InOrder(T, sent, s, f)
    ensures Arrivals(T, sent, s, f) >= 0
  {
  }

  lemma DeliveredGenuine(T: Topology, sent: seq<Message>, s: Net, n: NodeId)
    requires T.Valid() && PlacesOk(T, sent, s)
    ensures EnteringAt(T, s, n).Some? ==>
              && n in s.nodes && Genuine(T, sent, EnteringAt(T, s, n).value)
              && EnteringAt(T, s, n).value.tgt == Target(T, FlowOf(EnteringAt(T, s, n).value))
  {
    hide Entering, OnPath, NodesOk, EdgesOk, PortsOk, GetView, ViewOk, Topology.Valid;
    if n in s.nodes {
      ViewIsOk(T, sent, s, n);
      EnteringOk(T, sent, n, GetView(T, s, n));
    }
  }
}
