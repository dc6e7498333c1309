/** The congestion flag: hysteresis between the watermarks. */
module NocCongestion {
  import opened RouteTable
  import opened NocState
  import opened NocTick

  predicate Settled(T: Topology, node: Node) {
    UpdateCongestion(T, UpdateCongestion(T, node)) == UpdateCongestion(T, node)
  }

  /** Looking at the watermarks a second time changes the flag back exactly when the node stands at equal watermarks. */
  lemma SettledIff(T: Topology, node: Node)
    requires T.config.congestion.enabled && T.config.congestion.low <= T.config.congestion.high
    ensures Settled(T, node) <==>
            T.config.congestion.low < T.config.congestion.high || node.buffered != T.config.congestion.high
  {
    var once := UpdateCongestion(T, node);
    if T.config.congestion.low == T.config.congestion.high == node.buffered {
      assert once.congested != node.congested;
      assert UpdateCongestion(T, once).congested == node.congested;
    }
  }

  /**
   What the flag should be, given the buffer and what it was. A node that stands at equal watermarks keeps its flag,
   since the two looks of one tick undo each other.
   */
  function Hysteresis(T: Topology, buffered: nat, was: bool): bool {
    if buffered > T.config.congestion.high then true
    else if buffered < T.config.congestion.low then false
    else if T.config.congestion.low == T.config.congestion.high then was
    else if buffered == T.config.congestion.high then true
    else if buffered == T.config.congestion.low then false
    else was
  }

  /**
   A tick sets the flag as hysteresis on the number of packets buffered after the tick says, and clears it without
   congestion control.
   */
  lemma TickHysteresis(T: Topology, s: Net, n: NodeId)
    requires n in s.nodes && T.config.congestion.low <= T.config.congestion.high
    ensures n in Tick(T, s).nodes
    ensures var after := Tick(T, s).nodes[n];
            after.congested ==
            (T.config.congestion.enabled && Hysteresis(T, after.buffered, s.nodes[n].congested))
  {
    hide Tick, GetView, Arbitrate, Taken, Handed, PipeIn, RxOut, Release, BufferedAfter;
    ViewNode(T, s, n);
    TickNodeIs(T, s, n);
  }
}
