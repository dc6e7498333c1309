/** The bus as a bag of messages, read off the packets in the network. */
module NocBag {
  import opened Arith
  import opened NocState
  import opened NocInvariant
  import opened NocSystem
  import opened NocTick
  import opened NocPayload
  import opened NocEndpoints
  import opened NocConservation
  import opened NocRuns

  // ----- The bag by the books -----

  /** What a user of the bus can observe of a message. */
  datatype Letter = Letter(dst: PortId, cha: nat, data: seq<byte>)

  /** What message `x` contributes to the bag. */
  function Held(h: History, x: nat): multiset<Letter>
    requires x < |h.sent|
  {
    if x in h.received then multiset{} else multiset{Letter(h.sent[x].dst, h.sent[x].cha, h.sent[x].data)}
  }

  /** The accepted and not yet received messages among the first `n`. */
  function Bag(h: History, n: nat): multiset<Letter>
    requires n <= |h.sent|
  {
    if n == 0 then multiset{} else Bag(h, n - 1) + Held(h, n - 1)
  }

  lemma {:induction false} BagStable(h: History, m: Message, n: nat)
    requires n <= |h.sent|
    ensures Bag(h.(sent := h.sent + [m]), n) == Bag(h, n)
  {
    if n > 0 {
      BagStable(h, m, n - 1);
    }
  }

  lemma {:induction false} BagTakes(h: History, x: nat, n: nat)
    requires x < |h.sent| && n <= |h.sent| && x !in h.received
    ensures Bag(h, n) == Bag(h.(received := h.received + [x]), n) + if x < n then Held(h, x) else multiset{}
  {
    hide Held;
    if n > 0 {
      BagTakes(h, x, n - 1);
      HeldTakes(h, x, n - 1);
      BagRegroup(Bag(h, n - 1), Bag(h.(received := h.received + [x]), n - 1), Held(h, n - 1), Held(h, x));
    }
  }

  lemma HeldTakes(h: History, x: nat, y: nat)
    requires x < |h.sent| && y < |h.sent|
    ensures Held(h.(received := h.received + [x]), y) == if x == y then multiset{} else Held(h, y)
  {
    assert y in h.received + [x] <==> y in h.received || y == x;
  }

  lemma BagRegroup(a: multiset<Letter>, b: multiset<Letter>, own: multiset<Letter>, taken: multiset<Letter>)
    ensures a == b + taken ==> a + own == (b + own) + taken
    ensures a == b ==> a + own == b + own
    ensures b + multiset{} == b
  {
  }

  /** The bag after one operation, according to the history. */
  lemma StepOnBooks(T: Topology, st: State, op: Op)
    requires T.Valid() && Good(T, st) && OpFits(T, st, op) && Wired(T, st.net)
    ensures var bag, bag' := Bag(st.hist, |st.hist.sent|), Bag(Step(T, st, op).hist, |Step(T, st, op).hist.sent|);
            if Accepted(T, st, op) then bag' == bag + multiset{Letter(op.dst, op.cha, op.data)}
            else if Handing(T, st, op) then
              bag == bag' + multiset{Letter(op.port, op.cha, FrontMessage(st.net, op.port, op.cha))}
            else bag' == bag
  {
    hide Inv, Tick, Accept, TakeFront, Topology.Valid, SendOutcome, CanRecv, FrontMessage, RecvAt;
    var h := st.hist;
    if Accepted(T, st, op) {
      var m := MessageOf(st, op);
      BagStable(h, m, |h.sent|);
      NotYetSent(T, st);
    } else if Handing(T, st, op) {
      FrontIsMessage(T, h, st.net, op.port, op.cha);
      BagTakes(h, RecvAt(st.net, op.port, op.cha)[0].xmt, |h.sent|);
    }
  }

  lemma NotYetSent(T: Topology, st: State)
    requires Good(T, st)
    ensures |st.hist.sent| !in st.hist.received
  {
  }

  // ----- The bag in the network -----

  /** Place `pl` holds a packet of transfer `x`. */
  predicate Holds(s: Net, pl: Place, x: nat) {
    At(s, pl).Some? && At(s, pl).value.xmt == x
  }

  /** Some packet of transfer `x` is somewhere in the network. */
  ghost predicate Carried(s: Net, x: nat) {
    exists pl :: Holds(s, pl, x)
  }

  /** A packet of transfer `x`, and the one with index `i`. */
  ghost function AnyPacket(s: Net, x: nat): (p: Packet)
    requires Carried(s, x)
  {
    var pl :| Holds(s, pl, x);
    At(s, pl).value
  }

  predicate HoldsPart(s: Net, pl: Place, x: nat, i: nat) {
    Holds(s, pl, x) && At(s, pl).value.idx == i
  }

  ghost function Part(s: Net, x: nat, i: nat): Packet
    requires Carried(s, x)
  {
    if exists pl :: HoldsPart(s, pl, x, i) then
      var pl :| HoldsPart(s, pl, x, i);
      At(s, pl).value
    else AnyPacket(s, x)
  }

  /** What the packets of transfer `x`, wherever they are, amount to when they are put together. */
  ghost function Contents(s: Net, x: nat): Letter
    requires Carried(s, x)
  {
    var p := AnyPacket(s, x);
    Letter(p.dst, p.cha, Resize(Payload(seq(p.cnt, i requires 0 <= i => Part(s, x, i))), p.len))
  }

  /** The messages that the packets in the network make up, among the first `n` transfers. */
  ghost function NetBag(s: Net, n: nat): multiset<Letter> {
    if n == 0 then multiset{}
    else NetBag(s, n - 1) + Share(s, n - 1)
  }

  /** A transfer has packets in the network exactly as long as its message is outstanding. */
  lemma CarriedIff(T: Topology, h: History, s: Net, x: nat)
    requires T.Valid() && Inv(T, h, s) && x < |h.sent|
    ensures Carried(s, x) <==> x !in h.received
  {
    hide Inv, At, Genuine, MakePacket, Topology.Valid;
    InvSent(T, h, s);
    if Carried(s, x) {
      var pl :| Holds(s, pl, x);
      AtMostOnePlace(T, h, s, pl, pl, At(s, pl).value);
    }
    if x !in h.received {
      var pl := AtLeastOnePlace(T, h, s, x, 0);
      MadeFor(T, h.sent[x], x, 0);
      assert Holds(s, pl, x);
    }
  }

  lemma MadeFor(T: Topology, m: Message, x: nat, i: nat)
    requires MessageOk(T, m)
    ensures var p := MakePacket(T, m, x, i);
            p.xmt == x && p.idx == i && p.dst == m.dst && p.cha == m.cha && p.cnt == Count(T, m)
            && p.len == |m.data| % WORD32
  {
  }

  /** A packet found in the network is the one that `send` made. */
  lemma PartIs(T: Topology, h: History, s: Net, x: nat, i: nat)
    requires T.Valid() && Inv(T, h, s) && SentOk(T, h.sent) && x < |h.sent| && x !in h.received
    requires i < Count(T, h.sent[x]) && Carried(s, x)
    ensures Part(s, x, i) == MakePacket(T, h.sent[x], x, i)
  {
    hide Inv, At, MakePacket, Topology.Valid;
    var made := MakePacket(T, h.sent[x], x, i);
    MadeFor(T, h.sent[x], x, i);
    var home := AtLeastOnePlace(T, h, s, x, i);
    assert HoldsPart(s, home, x, i);
    var pl :| HoldsPart(s, pl, x, i) && Part(s, x, i) == At(s, pl).value;
    assert HoldsPart(s, pl, x, i) && Holds(s, pl, x);
    AtMostOnePlace(T, h, s, pl, pl, At(s, pl).value);
  }

  /** Put together, the packets of an outstanding message are its bytes. */
  lemma ContentsAre(T: Topology, h: History, s: Net, x: nat)
    requires T.Valid() && Inv(T, h, s) && SentOk(T, h.sent) && x < |h.sent| && x !in h.received && Carried(s, x)
    ensures Contents(s, x) == Letter(h.sent[x].dst, h.sent[x].cha, h.sent[x].data)
  {
    hide Inv, At, MakePacket, Topology.Valid, Part, Payload, Resize, PacketCount, Carried;
    var m := h.sent[x];
    AnyIs(T, h, s, x);
    var parts := seq(Count(T, m), i requires 0 <= i => Part(s, x, i));
    forall i | 0 <= i < Count(T, m) ensures parts[i] == Packetize(T, m, x)[i] {
      PartIs(T, h, s, x, i);
    }
    assert parts == Packetize(T, m, x);
    MadeFor(T, m, x, 0);
    RejoinsIff(T, m, x);
  }

  lemma AnyIs(T: Topology, h: History, s: Net, x: nat)
    requires T.Valid() && Inv(T, h, s) && SentOk(T, h.sent) && x < |h.sent| && Carried(s, x)
    ensures var p, m := AnyPacket(s, x), h.sent[x];
            p.dst == m.dst && p.cha == m.cha && p.cnt == Count(T, m) && p.len == |m.data| % WORD32
  {
    hide Inv, At, MakePacket, Topology.Valid;
    var pl :| Holds(s, pl, x) && AnyPacket(s, x) == At(s, pl).value;
    AtMostOnePlace(T, h, s, pl, pl, At(s, pl).value);
    MadeFor(T, h.sent[x], x, AnyPacket(s, x).idx);
  }

  /** The bag that the network carries is the one the books say. */
  lemma {:induction false} NetBagIsBag(T: Topology, h: History, s: Net, n: nat)
    requires T.Valid() && Inv(T, h, s) && n <= |h.sent|
    ensures NetBag(s, n) == Bag(h, n)
  {
    hide Inv, Topology.Valid, Share, Held;
    if n > 0 {
      NetBagIsBag(T, h, s, n - 1);
      OwnShare(T, h, s, n - 1);
    }
  }

  /** What one transfer contributes. */
  ghost function Share(s: Net, x: nat): multiset<Letter> {
    if Carried(s, x) then multiset{Contents(s, x)} else multiset{}
  }

  lemma OwnShare(T: Topology, h: History, s: Net, x: nat)
    requires T.Valid() && Inv(T, h, s) && x < |h.sent|
    ensures Share(s, x) == Held(h, x)
  {
    hide Inv, Topology.Valid, Contents, Carried;
    InvSent(T, h, s);
    CarriedIff(T, h, s, x);
    if x !in h.received {
      ContentsAre(T, h, s, x);
    }
  }

  /** The messages that the packets in a network make up; the next transfer id bounds those in use. */
  ghost function Load(s: Net): multiset<Letter> { NetBag(s, s.nextXmt) }

  lemma LoadIsBag(T: Topology, st: State)
    requires T.Valid() && Good(T, st)
    ensures Load(st.net) == Bag(st.hist, |st.hist.sent|)
  {
    hide Inv, Topology.Valid;
    NextIs(T, st.hist, st.net);
    NetBagIsBag(T, st.hist, st.net, |st.hist.sent|);
  }

  lemma NextIs(T: Topology, h: History, s: Net)
    requires Inv(T, h, s)
    ensures s.nextXmt == |h.sent|
  {
  }

  /**
   Every operation refines one on the bag of messages that the packets in the network make up: an accepted `send` adds
   exactly its message, a tick changes nothing, however many packets it moves, and a successful `recv` takes out one
   message for its port and channel and returns that message's bytes.
   */
  lemma StepOnBag(T: Topology, st: State, op: Op)
    requires T.Valid() && Good(T, st) && OpFits(T, st, op) && Wired(T, st.net)
    ensures var load, load' := Load(st.net), Load(Step(T, st, op).net);
            if Accepted(T, st, op) then load' == load + multiset{Letter(op.dst, op.cha, op.data)}
            else if Handing(T, st, op) then
              load == load' + multiset{Letter(op.port, op.cha, FrontMessage(st.net, op.port, op.cha))}
            else load' == load
  {
    hide Inv, Step, Topology.Valid, Load, SendOutcome, CanRecv, FrontMessage;
    StepKeeps(T, st, op);
    LoadIsBag(T, st);
    LoadIsBag(T, Step(T, st, op));
    StepOnBooks(T, st, op);
  }

  /** In particular, a tick moves packets but neither adds, removes nor changes a message. */
  lemma TickKeepsLoad(T: Topology, h: History, s: Net)
    requires T.Valid() && Inv(T, h, s)
    ensures Load(Tick(T, s)) == Load(s)
  {
    hide Inv, Tick, Topology.Valid, Load;
    TickInv(T, h, s);
    LoadIsBag(T, State(s, h));
    LoadIsBag(T, State(Tick(T, s), h));
  }
}
