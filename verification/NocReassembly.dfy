/** Reassembly at the destination: partial messages in the ordering lists, complete ones in the receive buffers. */
module NocReassembly {
  import opened RouteTable
  import opened NocState
  import opened NocInvariant

  /** For every message, how many of its packets have arrived. */
  ghost predicate CountsOk(T: Topology, sent: seq<Message>, arr: seq<nat>) {
    && SentOk(T, sent) && |arr| == |sent|
    && forall x :: 0 <= x < |sent| ==> arr[x] <= Count(T, sent[x])
  }

  // ----- Ordering lists -----

  ghost predicate Partial(T: Topology, sent: seq<Message>, arr: seq<nat>, n: NodeId, x: nat) {
    x < |sent| && x < |arr| && MessageOk(T, sent[x]) && T.NodeOf(sent[x].dst) == n && 0 < arr[x] < Count(T, sent[x])
  }

  /**
   Node `n` keeps a list exactly for the partially arrived messages to its ports, and it holds their first packets in
   order.
   */
  ghost predicate OrderOk(T: Topology, sent: seq<Message>, arr: seq<nat>, n: NodeId, orderBuf: OrderBuf) {
    && (forall x :: x in orderBuf <==> Partial(T, sent, arr, n, x))
    && (forall x :: x in orderBuf ==> orderBuf[x] == Packetize(T, sent[x], x)[..arr[x]])
  }

  lemma {:induction false} InsertLast(l: seq<Packet>, p: Packet)
    requires forall i :: 0 <= i < |l| ==> l[i].idx < p.idx
    ensures InsertByIdx(l, p) == l + [p]
  {
    if l != [] {
      InsertLast(l[1..], p);
      assert l == [l[0]] + l[1..];
    }
  }

  /** A packet arriving in order extends its list at the end. */
  lemma ExtendsList(T: Topology, sent: seq<Message>, arr: seq<nat>, n: NodeId, orderBuf: OrderBuf, p: Packet)
    requires CountsOk(T, sent, arr) && OrderOk(T, sent, arr, n, orderBuf)
    requires Genuine(T, sent, p) && p.tgt == n && p.idx == arr[p.xmt]
    ensures InsertByIdx(Collected(orderBuf, p.xmt), p) == Packetize(T, sent[p.xmt], p.xmt)[..p.idx + 1]
  {
    var l, all := Collected(orderBuf, p.xmt), Packetize(T, sent[p.xmt], p.xmt);
    assert p.idx > 0 ==> Partial(T, sent, arr, n, p.xmt);
    assert l == all[..p.idx];
    InsertLast(l, p);
    assert all[..p.idx + 1] == all[..p.idx] + [all[p.idx]];
  }

  /** The lists after an arrival, whatever it completes. */
  lemma DeliverLists(T: Topology, sent: seq<Message>, arr: seq<nat>, n: NodeId, ports: map<PortId, Port>,
                     orderBuf: OrderBuf, p: Packet)
    requires CountsOk(T, sent, arr) && OrderOk(T, sent, arr, n, orderBuf)
    requires Genuine(T, sent, p) && p.tgt == n && p.idx == arr[p.xmt] && p.dst in ports
    ensures OrderOk(T, sent, arr[p.xmt := p.idx + 1], n, Deliver(ports, orderBuf, p).1)
  {
    hide PushRecv, InsertByIdx, Packetize, Collected;
    var arr', orderBuf' := arr[p.xmt := p.idx + 1], Deliver(ports, orderBuf, p).1;
    assert forall x :: x != p.xmt ==> (Partial(T, sent, arr', n, x) <==> Partial(T, sent, arr, n, x));
    if p.cnt > 1 {
      ExtendsList(T, sent, arr, n, orderBuf, p);
      ListLength(T, sent, p);
    }
  }

  lemma ListLength(T: Topology, sent: seq<Message>, p: Packet)
    requires Genuine(T, sent, p)
    ensures |Packetize(T, sent[p.xmt], p.xmt)| == p.cnt && p.cnt >= 1 && p.cnt == Count(T, sent[p.xmt])
    ensures |Packetize(T, sent[p.xmt], p.xmt)[..p.idx + 1]| == p.idx + 1
  {
  }

  /** The receive buffers after an arrival: a completed message is appended whole, nothing else changes. */
  lemma DeliverBuffers(T: Topology, sent: seq<Message>, arr: seq<nat>, n: NodeId, ports: map<PortId, Port>,
                       orderBuf: OrderBuf, p: Packet)
    requires CountsOk(T, sent, arr) && OrderOk(T, sent, arr, n, orderBuf)
    requires Genuine(T, sent, p) && p.tgt == n && p.idx == arr[p.xmt] && p.dst in ports
    ensures var all := Packetize(T, sent[p.xmt], p.xmt);
            Deliver(ports, orderBuf, p).0
            == ports[p.dst := if p.idx + 1 == p.cnt then PushRecv(ports[p.dst], p.cha, all) else ports[p.dst]]
  {
    hide PushRecv, InsertByIdx, Collected;
    ListLength(T, sent, p);
    var all := Packetize(T, sent[p.xmt], p.xmt);
    if p.cnt <= 1 {
      assert all == [p];
    } else {
      ExtendsList(T, sent, arr, n, orderBuf, p);
      assert p.idx + 1 == p.cnt ==> all[..p.idx + 1] == all;
      assert ports[p.dst := ports[p.dst]] == ports;
    }
  }

  // ----- Receive buffers -----

  /** A receive buffer is a concatenation of complete messages for its port and channel. */
  predicate Whole(T: Topology, sent: seq<Message>, q: PortId, c: nat, buf: seq<Packet>)
    decreases |buf|
  {
    buf == [] ||
    var p := buf[0];
    && Genuine(T, sent, p) && p.idx == 0 && p.dst == q && p.cha == c
    && 0 < p.cnt <= |buf| && buf[..p.cnt] == Packetize(T, sent[p.xmt], p.xmt)
    && Whole(T, sent, q, c, buf[p.cnt..])
  }

  /** The transfer ids of the messages in a receive buffer, in order. */
  function ReadyIds(buf: seq<Packet>): seq<nat>
    decreases |buf|
  {
    if buf == [] || buf[0].cnt == 0 || buf[0].cnt > |buf| then [] else [buf[0].xmt] + ReadyIds(buf[buf[0].cnt..])
  }

  lemma {:induction false} AppendWhole(T: Topology, sent: seq<Message>, q: PortId, c: nat, buf: seq<Packet>, x: nat)
    requires Whole(T, sent, q, c, buf)
    requires x < |sent| && MessageOk(T, sent[x]) && sent[x].dst == q && sent[x].cha == c
    ensures var buf' := buf + Packetize(T, sent[x], x);
            Whole(T, sent, q, c, buf') && ReadyIds(buf') == ReadyIds(buf) + [x]
    decreases |buf|
  {
    hide Chunk, PacketCount, Whole, ReadyIds, Packetize;
    if buf == [] {
      OnlyMessage(T, sent, q, c, x);
      assert buf + Packetize(T, sent[x], x) == Packetize(T, sent[x], x);
    } else {
      FirstMessage(T, sent, q, c, buf, Packetize(T, sent[x], x));
      AppendWhole(T, sent, q, c, buf[buf[0].cnt..], x);
    }
  }

  lemma OnlyMessage(T: Topology, sent: seq<Message>, q: PortId, c: nat, x: nat)
    requires x < |sent| && MessageOk(T, sent[x]) && sent[x].dst == q && sent[x].cha == c
    ensures Whole(T, sent, q, c, Packetize(T, sent[x], x)) && ReadyIds(Packetize(T, sent[x], x)) == [x]
    ensures ReadyIds([]) == []
  {
    hide Chunk, PacketCount;
    var all := Packetize(T, sent[x], x);
    assert all[|all|..] == [] && all[..|all|] == all;
    assert all[0] == MakePacket(T, sent[x], x, 0) && all[0].cnt == |all|;
  }

  /** What is appended comes after the first message. */
  lemma FirstMessage(T: Topology, sent: seq<Message>, q: PortId, c: nat, buf: seq<Packet>, more: seq<Packet>)
    requires Whole(T, sent, q, c, buf) && buf != []
    ensures 0 < buf[0].cnt <= |buf|
    ensures var rest := buf[buf[0].cnt..];
            && Whole(T, sent, q, c, rest) && ReadyIds(buf) == [buf[0].xmt] + ReadyIds(rest)
            && (Whole(T, sent, q, c, rest + more) ==> Whole(T, sent, q, c, buf + more))
            && ReadyIds(buf + more) == [buf[0].xmt] + ReadyIds(rest + more)
  {
    hide Packetize, Genuine;
    var k, all := buf[0].cnt, buf + more;
    assert all[k..] == buf[k..] + more && all[..k] == buf[..k] && all[0] == buf[0];
  }

  lemma {:induction false} ReadyBelongs(T: Topology, sent: seq<Message>, q: PortId, c: nat, buf: seq<Packet>)
    requires Whole(T, sent, q, c, buf)
    ensures forall x :: x in ReadyIds(buf) ==>
                          x < |sent| && MessageOk(T, sent[x]) && sent[x].dst == q && sent[x].cha == c
    decreases |buf|
  {
    if buf != [] {
      ReadyBelongs(T, sent, q, c, buf[buf[0].cnt..]);
    }
  }

  lemma {:induction false} WholeStable(T: Topology, sent: seq<Message>, m: Message, q: PortId, c: nat, buf: seq<Packet>)
    requires Whole(T, sent, q, c, buf)
    ensures Whole(T, sent + [m], q, c, buf)
    decreases |buf|
  {
    if buf != [] {
      WholeStable(T, sent, m, q, c, buf[buf[0].cnt..]);
    }
  }

  // ----- Which messages are done -----

  /** The ids among `ids` that belong to flow `f`. */
  function OfIds(sent: seq<Message>, ids: seq<nat>, f: Flow): seq<nat> {
    if ids == [] then []
    else (if ids[0] < |sent| && MessageFlow(sent[ids[0]]) == f then [ids[0]] else []) + OfIds(sent, ids[1..], f)
  }

  lemma {:induction false} OfIdsConcat(sent: seq<Message>, a: seq<nat>, b: seq<nat>, f: Flow)
    ensures OfIds(sent, a + b, f) == OfIds(sent, a, f) + OfIds(sent, b, f)
  {
    if a == [] {
      assert a + b == b;
    } else {
      assert (a + b)[1..] == a[1..] + b;
      OfIdsConcat(sent, a[1..], b, f);
    }
  }

  lemma {:induction false} OfIdsMember(sent: seq<Message>, ids: seq<nat>, f: Flow, x: nat)
    ensures x in OfIds(sent, ids, f) <==> x in ids && x < |sent| && MessageFlow(sent[x]) == f
  {
    if ids != [] {
      OfIdsMember(sent, ids[1..], f, x);
      assert ids == [ids[0]] + ids[1..];
    }
  }

  lemma {:induction false} OfIdsStable(sent: seq<Message>, m: Message, ids: seq<nat>, f: Flow)
    requires forall i :: 0 <= i < |ids| ==> ids[i] < |sent|
    ensures OfIds(sent + [m], ids, f) == OfIds(sent, ids, f)
  {
    if ids != [] {
      OfIdsStable(sent, m, ids[1..], f);
    }
  }

  /** The completely arrived messages of flow `f`: those received, then those waiting in the receive buffer. */
  function DoneIds(h: History, ready: seq<nat>, f: Flow): seq<nat> {
    OfIds(h.sent, h.received, f) + OfIds(h.sent, ready, f)
  }

  ghost predicate Complete(T: Topology, sent: seq<Message>, arr: seq<nat>, f: Flow, x: nat) {
    x < |sent| && x < |arr| && MessageFlow(sent[x]) == f && MessageOk(T, sent[x]) && arr[x] == Count(T, sent[x])
  }

  /** Exactly the completely arrived messages of `f` are done, each once, in the order they were sent. */
  ghost predicate DoneOk(T: Topology, h: History, arr: seq<nat>, ready: seq<nat>, f: Flow) {
    && Increasing(DoneIds(h, ready, f))
    && forall x :: x in DoneIds(h, ready, f) <==> Complete(T, h.sent, arr, f, x)
  }

  /** A message that completes joins the end of its flow's done messages. */
  lemma DoneAppends(T: Topology, h: History, arr: seq<nat>, arr': seq<nat>, ready: seq<nat>, f: Flow, x: nat)
    requires DoneOk(T, h, arr, ready, f)
    requires !Complete(T, h.sent, arr, f, x) && Complete(T, h.sent, arr', f, x)
    requires forall y: nat :: y != x ==> (Complete(T, h.sent, arr', f, y) <==> Complete(T, h.sent, arr, f, y))
    requires forall y: nat :: Complete(T, h.sent, arr, f, y) ==> y < x
    ensures DoneOk(T, h, arr', ready + [x], f)
  {
    OfIdsConcat(h.sent, ready, [x], f);
    var d, d' := DoneIds(h, ready, f), DoneIds(h, ready + [x], f);
    assert OfIds(h.sent, [x], f) == [x];
    assert d' == d + [x];
    forall i, j | 0 <= i < j < |d'| ensures d'[i] < d'[j] {
      assert d'[i] in d;
    }
  }

  /** Handing the oldest ready message to the caller leaves the done messages of every flow as they are. */
  lemma DoneReceives(h: History, ready: seq<nat>, f: Flow)
    requires ready != []
    ensures DoneIds(h.(received := h.received + [ready[0]]), ready[1..], f) == DoneIds(h, ready, f)
  {
    OfIdsConcat(h.sent, h.received, [ready[0]], f);
    assert ready == [ready[0]] + ready[1..];
    OfIdsConcat(h.sent, [ready[0]], ready[1..], f);
  }
}
