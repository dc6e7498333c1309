/** What one node's part of a tick does to the packets it can see. */
module NocNodeStep {
  import opened Wrappers
  import opened RouteTable
  import opened NocState
  import opened NocInvariant

  // ----- The release pass over the pipeline -----

  /** The pass only fills free inputs: it keeps the shape of `tx` and every packet already there. */
  ghost predicate Fills(tx: map<NodeId, Slots>, tx': map<NodeId, Slots>) {
    && tx'.Keys == tx.Keys
    && forall m :: m in tx ==>
                     && |tx'[m]| == |tx[m]|
                     && forall c :: 0 <= c < |tx[m]| && tx[m][c].Some? ==> tx'[m][c] == tx[m][c]
  }

  lemma {:induction false} ReleaseFills(T: Topology, n: NodeId, pipe: seq<Piped>, tx: map<NodeId, Slots>)
    ensures Fills(tx, Release(T, n, pipe, tx).1)
    ensures |Release(T, n, pipe, tx).0| <= |pipe|
    decreases |pipe|
  {
    if pipe != [] {
      ReleaseFills(T, n, pipe[1..], Filled(T, n, pipe[0], tx));
    }
  }

  /** While every packet still has cycles to wait, the pass only counts them down. */
  lemma {:induction false} ReleaseWaits(T: Topology, n: NodeId, pipe: seq<Piped>, tx: map<NodeId, Slots>, f: Flow)
    requires forall i :: 0 <= i < |pipe| ==> pipe[i].remain > 0
    ensures Release(T, n, pipe, tx).1 == tx
    ensures OfPipe(Release(T, n, pipe, tx).0, f) == OfPipe(pipe, f)
    decreases |pipe|
  {
    if pipe != [] {
      ReleaseWaits(T, n, pipe[1..], tx, f);
    }
  }

  lemma SortedTail(pipe: seq<Piped>)
    requires Sorted(pipe) && pipe != []
    ensures Sorted(pipe[1..])
    ensures pipe[0].remain > 0 ==> forall i :: 0 <= i < |pipe[1..]| ==> pipe[1..][i].remain > 0
  {
  }

  function TxSlot(tx: map<NodeId, Slots>, m: NodeId, c: nat): Option<Packet> {
    if m in tx then Slot(tx[m], c) else None
  }

  /**
   The pass keeps the order of every flow: what it puts on the link is what stood
   first in the pipeline, because the pipeline is sorted and an occupied input
   stays occupied for the rest of the pass.
   */
  lemma {:induction false} ReleaseKeepsOrder(T: Topology, n: NodeId, pipe: seq<Piped>, tx: map<NodeId, Slots>, f: Flow)
    requires Sorted(pipe)
    requires forall i :: 0 <= i < |pipe| && FlowOf(pipe[i].pack) == f ==> pipe[i].pack.tgt == Target(T, f)
    ensures var r, m := Release(T, n, pipe, tx), T.Next(n, Target(T, f));
            OfSlot(TxSlot(r.1, m, f.cha), f) + OfPipe(r.0, f) == OfSlot(TxSlot(tx, m, f.cha), f) + OfPipe(pipe, f)
    decreases |pipe|
  {
    if pipe != [] {
      var head, rest := pipe[0], pipe[1..];
      var m, hm := T.Next(n, Target(T, f)), T.Next(n, head.pack.tgt);
      var tx1 := Filled(T, n, head, tx);
      SortedTail(pipe);
      if head.remain > 0 {
        ReleaseWaits(T, n, rest, tx, f);
      } else if SlotFree(tx, hm, head.pack.cha) {
        ReleaseKeepsOrder(T, n, rest, tx1, f);
        ReleasedHead(tx, hm, head.pack, m, f, pipe);
      } else {
        ReleaseKeepsOrder(T, n, rest, tx, f);
        ReleaseFills(T, n, rest, tx);
        BlockedHead(tx, Release(T, n, rest, tx).1, m, f, head.pack, OfPipe(Release(T, n, rest, tx).0, f),
                    OfPipe(rest, f));
      }
    }
  }

  /** Moving the head of the pipeline to its free input leaves the flow's sequence unchanged. */
  lemma ReleasedHead(tx: map<NodeId, Slots>, hm: NodeId, p: Packet, m: NodeId, f: Flow, pipe: seq<Piped>)
    requires pipe != [] && pipe[0].pack == p && SlotFree(tx, hm, p.cha)
    requires FlowOf(p) == f ==> hm == m
    ensures OfSlot(TxSlot(tx[hm := tx[hm][p.cha := Some(p)]], m, f.cha), f) + OfPipe(pipe[1..], f)
         == OfSlot(TxSlot(tx, m, f.cha), f) + OfPipe(pipe, f)
  {
    if FlowOf(p) == f {
      assert TxSlot(tx, m, f.cha) == None;
    } else if hm == m && p.cha == f.cha {
      assert TxSlot(tx, m, f.cha) == None;
    }
  }

  /** A head that stays because its input is taken stays in front of the packets behind it. */
  lemma BlockedHead(tx: map<NodeId, Slots>, tx': map<NodeId, Slots>, m: NodeId, f: Flow, p: Packet, kept: seq<Packet>,
                    rest: seq<Packet>)
    requires Fills(tx, tx')
    requires OfSlot(TxSlot(tx', m, f.cha), f) + kept == OfSlot(TxSlot(tx, m, f.cha), f) + rest
    requires FlowOf(p) == f ==> !SlotFree(tx, m, p.cha)
    ensures OfSlot(TxSlot(tx', m, f.cha), f) + (Only(p, f) + kept)
         == OfSlot(TxSlot(tx, m, f.cha), f) + (Only(p, f) + rest)
  {
    if FlowOf(p) == f {
      assert TxSlot(tx', m, f.cha) == TxSlot(tx, m, f.cha);
      var slot := OfSlot(TxSlot(tx, m, f.cha), f);
      assert (slot + kept)[|slot|..] == kept && (slot + rest)[|slot|..] == rest;
    } else {
      assert Only(p, f) + kept == kept && Only(p, f) + rest == rest;
    }
  }

  ghost predicate AtLeast(pipe: seq<Piped>, low: int) {
    forall i :: 0 <= i < |pipe| ==> low <= pipe[i].remain
  }

  lemma AtLeastCons(e: Piped, pipe: seq<Piped>, low: int)
    ensures AtLeast([e] + pipe, low) <==> low <= e.remain && AtLeast(pipe, low)
  {
    var all := [e] + pipe;
    assert all[0] == e && all[1..] == pipe;
    if AtLeast(all, low) {
      forall i | 0 <= i < |pipe| ensures low <= pipe[i].remain { assert pipe[i] == all[i + 1]; }
    }
  }

  /** One pass takes at most one cycle off a packet that stays. */
  lemma {:induction false} ReleaseBound(T: Topology, n: NodeId, pipe: seq<Piped>, tx: map<NodeId, Slots>, low: nat)
    requires AtLeast(pipe, low)
    ensures AtLeast(Release(T, n, pipe, tx).0, low - 1)
    decreases |pipe|
  {
    if pipe != [] {
      assert pipe == [pipe[0]] + pipe[1..];
      AtLeastCons(pipe[0], pipe[1..], low);
      ReleaseBound(T, n, pipe[1..], Filled(T, n, pipe[0], tx), low);
      AtLeastCons(Aged(pipe[0]), Release(T, n, pipe[1..], Filled(T, n, pipe[0], tx)).0, low - 1);
    }
  }

  lemma SortedCons(e: Piped, pipe: seq<Piped>)
    ensures Sorted([e] + pipe) <==> AtLeast(pipe, e.remain) && Sorted(pipe)
  {
    var all := [e] + pipe;
    assert all[0] == e && all[1..] == pipe;
    if Sorted(all) {
      forall i | 0 <= i < |pipe| ensures e.remain <= pipe[i].remain { assert pipe[i] == all[i + 1]; }
      forall i, j | 0 <= i < j < |pipe|
        ensures pipe[i].remain <= pipe[j].remain { assert pipe[i] == all[i + 1] && pipe[j] == all[j + 1]; }
    }
  }

  lemma {:induction false} ReleaseSorted(T: Topology, n: NodeId, pipe: seq<Piped>, tx: map<NodeId, Slots>)
    requires Sorted(pipe)
    ensures Sorted(Release(T, n, pipe, tx).0)
    decreases |pipe|
  {
    if pipe != [] {
      var tx1 := Filled(T, n, pipe[0], tx);
      assert pipe == [pipe[0]] + pipe[1..];
      SortedCons(pipe[0], pipe[1..]);
      ReleaseSorted(T, n, pipe[1..], tx1);
      ReleaseBound(T, n, pipe[1..], tx1, pipe[0].remain);
      var kept := Release(T, n, pipe[1..], tx1).0;
      assert AtLeast(kept, Aged(pipe[0]).remain);
      SortedCons(Aged(pipe[0]), kept);
    }
  }

  /** What stays in the pipeline stood there before. */
  lemma {:induction false} ReleaseKept(T: Topology, sent: seq<Message>, n: NodeId, pipe: seq<Piped>,
                                       tx: map<NodeId, Slots>)
    requires AllStay(T, sent, n, pipe)
    ensures AllStay(T, sent, n, Release(T, n, pipe, tx).0)
    decreases |pipe|
  {
    if pipe != [] {
      assert StaysOk(T, sent, n, pipe[0]);
      assert AllStay(T, sent, n, pipe[1..]);
      ReleaseKept(T, sent, n, pipe[1..], Filled(T, n, pipe[0], tx));
      AllStayCons(T, sent, n, Aged(pipe[0]), Release(T, n, pipe[1..], Filled(T, n, pipe[0], tx)).0);
    }
  }

  lemma AllStayCons(T: Topology, sent: seq<Message>, n: NodeId, e: Piped, pipe: seq<Piped>)
    requires StaysOk(T, sent, n, e) && AllStay(T, sent, n, pipe)
    ensures AllStay(T, sent, n, [e] + pipe)
  {
    var all := [e] + pipe;
    forall i | 0 <= i < |all| ensures StaysOk(T, sent, n, all[i]) {
      assert all[i] == if i == 0 then e else pipe[i - 1];
    }
  }

  ghost predicate TxOk(T: Topology, sent: seq<Message>, n: NodeId, tx: map<NodeId, Slots>)
  {
    forall m :: m in tx ==> SlotsOk(T, sent, n, m, tx[m])
  }

  lemma {:induction false} ReleaseTxOk(T: Topology, sent: seq<Message>, n: NodeId, pipe: seq<Piped>,
                                       tx: map<NodeId, Slots>)
    requires TxOk(T, sent, n, tx)
    requires AllStay(T, sent, n, pipe)
    ensures TxOk(T, sent, n, Release(T, n, pipe, tx).1)
    decreases |pipe|
  {
    if pipe != [] {
      assert StaysOk(T, sent, n, pipe[0]);
      ReleaseTxOk(T, sent, n, pipe[1..], Filled(T, n, pipe[0], tx));
    }
  }

  // ----- The parts of a node's step -----

  lemma ProcessNodePointers(T: Topology, n: NodeId, v: View)
    requires PointerOk(v.node.rxPtr, |T.Rxs(n)|) && PointerOk(v.node.sdPtr, |T.Attached(n)|)
    ensures var v' := ProcessNode(T, n, v);
            PointerOk(v'.node.rxPtr, |T.Rxs(n)|) && PointerOk(v'.node.sdPtr, |T.Attached(n)|)
  {
    ScanLinksPointer(T.Rxs(n), v.rx, v.node.rxPtr, |T.Rxs(n)|);
    ScanPortsPointer(T.Attached(n), v.ports, v.node.sdPtr, |T.Attached(n)|);
  }

  lemma {:induction false} ScanLinksPointer(froms: seq<NodeId>, rx: map<NodeId, Slots>, ptr: nat, tries: nat)
    requires PointerOk(ptr, |froms|)
    ensures PointerOk(ScanLinks(froms, rx, ptr, tries).0, |froms|)
    decreases tries
  {
    if !(tries == 0 || ptr >= |froms| || froms[ptr] !in rx) && FirstFull(rx[froms[ptr]], 0).None? {
      ScanLinksPointer(froms, rx, Inc(ptr, |froms|), tries - 1);
    }
  }

  lemma {:induction false} ScanPortsPointer(ids: seq<PortId>, ports: map<PortId, Port>, ptr: nat, tries: nat)
    requires PointerOk(ptr, |ids|)
    ensures PointerOk(ScanPorts(ids, ports, ptr, tries).0, |ids|)
    decreases tries
  {
    if !(tries == 0 || ptr >= |ids| || ids[ptr] !in ports) && FirstQueued(ports[ids[ptr]].sendBuf, 0).None? {
      ScanPortsPointer(ids, ports, Inc(ptr, |ids|), tries - 1);
    }
  }

  // ----- A node's step keeps every packet in a place where it belongs -----

  /** Whatever a node admits is a genuine packet whose route visits the node. */
  lemma EnteringOk(T: Topology, sent: seq<Message>, n: NodeId, v: View)
    requires T.Valid() && n in T.nodes && ViewOk(T, sent, n, v)
    ensures Entering(T, n, v).Some? <==> Taken(T, n, v) != NoChoice
    ensures var p := Entering(T, n, v); p.Some? ==>
              && Genuine(T, sent, p.value) && OnPath(T, T.NodeOf(p.value.src), n, p.value.tgt)
              && (p.value.tgt == n || RightPlace(T, sent, n, p.value))
  {
    match Taken(T, n, v)
    case NoChoice =>
    case FromLink(k, c) =>
      var p := v.rx[k][c].value;
      assert SlotsOk(T, sent, k, n, v.rx[k]);
      assert RightPlace(T, sent, k, p);
      OnPathNext(T, T.NodeOf(p.src), k, p.tgt);
    case FromPort(q, c) =>
      assert QueuesOk(T, sent, q, v.ports[q]);
      assert QueueOk(T, sent, q, c, v.ports[q].sendBuf[c]);
  }

  lemma StepPipeOk(T: Topology, sent: seq<Message>, n: NodeId, v: View)
    requires T.Valid() && n in T.nodes && ViewOk(T, sent, n, v)
    ensures PipeOk(T, sent, n, PipeIn(T, n, v))
    ensures PipeOk(T, sent, n, ProcessNode(T, n, v).node.pipeline)
  {
    hide Taken, Entering, PipeIn, Handed, RxOut, Release, Arbitrate, StaysOk, RightPlace, SlotsOk, QueuesOk,
      Topology.Valid, Sorted, AllStay;
    EnteringOk(T, sent, n, v);
    PipeInOk(T, sent, n, v);
    ReleaseKept(T, sent, n, PipeIn(T, n, v), v.tx);
    ReleaseSorted(T, n, PipeIn(T, n, v), v.tx);
  }

  lemma PipeInOk(T: Topology, sent: seq<Message>, n: NodeId, v: View)
    requires PipeOk(T, sent, n, v.node.pipeline)
    requires var p := Entering(T, n, v); p.Some? && p.value.tgt != n ==> RightPlace(T, sent, n, p.value)
    ensures PipeOk(T, sent, n, PipeIn(T, n, v))
  {
    var p := Entering(T, n, v);
    if p.Some? && p.value.tgt != n {
      var e := Piped(p.value, T.config.latency);
      assert StaysOk(T, sent, n, e);
      var all := v.node.pipeline + [e];
      forall i | 0 <= i < |all| ensures StaysOk(T, sent, n, all[i]) && all[i].remain <= e.remain {
        assert i < |v.node.pipeline| ==> StaysOk(T, sent, n, v.node.pipeline[i]);
      }
    }
  }

  lemma StepTxOk(T: Topology, sent: seq<Message>, n: NodeId, v: View)
    requires T.Valid() && n in T.nodes && ViewOk(T, sent, n, v)
    ensures TxOk(T, sent, n, ProcessNode(T, n, v).tx) && ProcessNode(T, n, v).tx.Keys == v.tx.Keys
  {
    StepPipeOk(T, sent, n, v);
    ReleaseTxOk(T, sent, n, PipeIn(T, n, v), v.tx);
    ReleaseFills(T, n, PipeIn(T, n, v), v.tx);
  }

  lemma StepRxOk(T: Topology, sent: seq<Message>, n: NodeId, v: View)
    requires ViewOk(T, sent, n, v)
    ensures ProcessNode(T, n, v).rx.Keys == v.rx.Keys
    ensures forall k :: k in v.rx ==> SlotsOk(T, sent, k, n, ProcessNode(T, n, v).rx[k])
  {
    var taken := Taken(T, n, v);
    if taken.FromLink? {
      ClearedOk(T, sent, taken.k, n, v.rx[taken.k], taken.c);
    }
  }

  lemma ClearedOk(T: Topology, sent: seq<Message>, k: NodeId, m: NodeId, slots: Slots, c: nat)
    requires SlotsOk(T, sent, k, m, slots) && c < |slots|
    ensures SlotsOk(T, sent, k, m, slots[c := None])
  {
  }

  /** Popping the first packet leaves the rest of the same message. */
  lemma PopQueueOk(T: Topology, sent: seq<Message>, q: PortId, c: nat, queue: seq<Packet>)
    requires queue != [] && QueueOk(T, sent, q, c, queue)
    ensures QueueOk(T, sent, q, c, queue[1..])
  {
    var all, i := Packetize(T, sent[queue[0].xmt], queue[0].xmt), queue[0].idx;
    if queue[1..] != [] {
      assert queue[1..] == all[i + 1..];
      assert queue[1] == all[i + 1];
    }
  }

  lemma PoppedOk(T: Topology, sent: seq<Message>, n: NodeId, v: View)
    requires ViewOk(T, sent, n, v)
    ensures Popped(T, n, v).Keys == v.ports.Keys
    ensures forall q :: q in v.ports ==> QueuesOk(T, sent, q, Popped(T, n, v)[q])
  {
    forall q | q in v.ports ensures QueuesOk(T, sent, q, Popped(T, n, v)[q]) {
      assert QueuesOk(T, sent, q, v.ports[q]);
      match Taken(T, n, v)
      case FromPort(q', c) =>
        if q == q' {
          assert QueueOk(T, sent, q, c, v.ports[q].sendBuf[c]);
          PopQueueOk(T, sent, q, c, v.ports[q].sendBuf[c]);
        }
      case _ =>
    }
  }

  lemma DeliverOk(T: Topology, sent: seq<Message>, ports: map<PortId, Port>, orderBuf: OrderBuf, p: Packet, q: PortId)
    requires q in ports && QueuesOk(T, sent, q, ports[q])
    ensures q in Deliver(ports, orderBuf, p).0 && QueuesOk(T, sent, q, Deliver(ports, orderBuf, p).0[q])
  {
    hide QueueOk, InsertByIdx;
  }

  lemma StepPortsOk(T: Topology, sent: seq<Message>, n: NodeId, v: View)
    requires T.Valid() && n in T.nodes && ViewOk(T, sent, n, v)
    ensures ProcessNode(T, n, v).ports.Keys == v.ports.Keys
    ensures forall q :: q in v.ports ==> QueuesOk(T, sent, q, ProcessNode(T, n, v).ports[q])
  {
    hide Taken, Entering, Popped, Release, PipeIn, Arbitrate, RxOut, UpdateCongestion, BufferedAfter, QueuesOk, ViewOk,
      InsertByIdx;
    PoppedOk(T, sent, n, v);
    var ports, p := Popped(T, n, v), Entering(T, n, v);
    if p.Some? && p.value.tgt == n {
      DeliverKeys(ports, v.node.orderBuf, p.value);
      forall q | q in v.ports ensures q in Handed(T, n, v).0 && QueuesOk(T, sent, q, Handed(T, n, v).0[q]) {
        DeliverOk(T, sent, ports, v.node.orderBuf, p.value, q);
      }
    }
  }

  lemma DeliverKeys(ports: map<PortId, Port>, orderBuf: OrderBuf, p: Packet)
    ensures Deliver(ports, orderBuf, p).0.Keys == ports.Keys
  {
  }
}
