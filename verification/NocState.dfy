/**
 State and per-tick behaviour of the symmetric multi-channel bus, as values:
 the records the bus keeps in its containers, and one function per operation
 that says what the operation makes of them.
 */
module NocState {
  import opened Arith
  import opened Wrappers
  import opened RouteTable

  type PortId = nat
  type Link = (NodeId, NodeId)

  const MAX_PACKETS := 65535
  const MAX_WIDTH := 65536

  // ----- Configuration and wiring -----

  datatype Congestion = Congestion(enabled: bool, limit: nat, high: nat, low: nat)

  datatype Config = Config(linkWidth: nat, latency: nat, congestion: Congestion, slots: nat, maxBytes: nat)

  /**
   The parts of a bus that never change after construction. `links` are the
   directed edges; `rxs[n]` lists the far ends of the links into `n` and
   `attached[n]` the ports at `n`, each in the fixed order arbitration visits them.
   */
  datatype Topology = Topology(
    nodes: set<NodeId>,
    port2node: map<PortId, NodeId>,
    widths: seq<nat>,
    route: Table,
    config: Config,
    links: set<Link>,
    rxs: map<NodeId, seq<NodeId>>,
    attached: map<NodeId, seq<PortId>>)
  {
    function Channels(): nat { |widths| }

    /** The next hop; a missing entry (an exception in the source) stays put and is excluded by `Valid`. */
    function Next(n: NodeId, target: NodeId): NodeId {
      if n != target && Lookup(route, n, target).Some? then Lookup(route, n, target).value else n
    }

    predicate ConfigValid() {
      && |widths| > 0 && (forall c :: 0 <= c < |widths| ==> 0 < widths[c] <= MAX_WIDTH)
      && 0 < config.linkWidth < WORD32
      && (config.slots == 0 || config.maxBytes > 0)
      && (config.congestion.enabled ==>
            config.congestion.limit > 0 && config.congestion.low <= config.congestion.high <= config.congestion.limit)
    }

    ghost predicate WiringValid() {
      && (forall p :: p in port2node ==> port2node[p] in nodes)
      && (forall n, t {:trigger Next(n, t)} :: n in nodes && t in nodes && n != t ==> (n, Next(n, t)) in links)
      && (forall l :: l in links ==> l.0 in nodes && l.1 in nodes)
      && (forall n, k {:trigger (k, n) in links} {:trigger k in Rxs(n)} ::
            n in nodes ==> (k in Rxs(n) <==> (k, n) in links))
      && (forall n, p {:trigger p in Attached(n)} ::
            n in nodes ==> (p in Attached(n) <==> p in port2node && port2node[p] == n))
      && (forall n {:trigger Rxs(n)} {:trigger Attached(n)} :: n in nodes ==> Distinct(Rxs(n)) && Distinct(Attached(n)))
    }

    ghost predicate Valid() {
      ConfigValid() && WiringValid() && AllReachable(nodes, route)
    }

    /** The links and ports visited by arbitration at `n`, and the node of a port. */
    function Rxs(n: NodeId): seq<NodeId> { if n in rxs then rxs[n] else [] }

    function Attached(n: NodeId): seq<PortId> { if n in attached then attached[n] else [] }

    function NodeOf(p: PortId): NodeId { if p in port2node then port2node[p] else 0 }

    ghost predicate Reaches(n: NodeId, target: NodeId) { Reachable(nodes, route, n, target) }

    /** Remaining hops from `n` to `target`. */
    ghost function Dist(n: NodeId, target: NodeId): nat {
      if Reaches(n, target) then Distance(nodes, route, n, target) else 0
    }
  }

  // ----- Packets and the mutable records -----

  datatype Packet = Packet(
    src: PortId, dst: PortId, tgt: NodeId, cha: nat, xmt: nat, len: nat, idx: nat, cnt: nat, start: nat,
    data: seq<byte>)

  type Slots = seq<Option<Packet>>

  type OrderBuf = map<nat, seq<Packet>>

  datatype Piped = Piped(pack: Packet, remain: nat)

  datatype Node = Node(
    pipeline: seq<Piped>, orderBuf: OrderBuf, rxPtr: nat, sdPtr: nat, buffered: nat, congested: bool)

  datatype Port = Port(recvBuf: seq<seq<Packet>>, sendBuf: seq<seq<Packet>>, reserved: seq<nat>)

  datatype Edge = Edge(input: Slots, output: Slots)

  datatype Net = Net(nodes: map<NodeId, Node>, ports: map<PortId, Port>, edges: map<Link, Edge>, tick: nat,
                     nextXmt: nat)

  /** What one node can see during a tick: its own record, its ports, its incoming outputs and its outgoing inputs. */
  datatype View = View(node: Node, ports: map<PortId, Port>, rx: map<NodeId, Slots>, tx: map<NodeId, Slots>)

  function GetView(T: Topology, s: Net, n: NodeId): View
    requires n in s.nodes
  {
    View(s.nodes[n],
         map p | p in s.ports && T.NodeOf(p) == n :: s.ports[p],
         map k | k in s.nodes && (k, n) in s.edges :: s.edges[(k, n)].output,
         map m | m in s.nodes && (n, m) in s.edges :: s.edges[(n, m)].input)
  }

  lemma ViewNode(T: Topology, s: Net, n: NodeId)
    requires n in s.nodes
    ensures GetView(T, s, n).node == s.nodes[n]
  {
  }

  // ----- Splitting a message into packets -----

  datatype Message = Message(src: PortId, dst: PortId, cha: nat, data: seq<byte>, start: nat)

  /** Rounding up to a multiple, in 32-bit arithmetic: the sum wraps before it is cut to a multiple of `align`. */
  function AlignUp(value: nat, align: nat): nat
    requires align > 0
  {
    var sum := (value + align - 1) % WORD32;
    sum - sum % align
  }

  function PacketCount(size: nat, width: nat): nat
    requires width > 0
  {
    AlignUp((if size == 0 then 1 else size) % WORD32, width) / width
  }

  /** The `i`-th slice of `data`, zero-padded to `width` bytes. */
  function Chunk(data: seq<byte>, width: nat, i: nat): seq<byte> {
    seq(width, j requires 0 <= j < width => if i * width + j < |data| then data[i * width + j] else 0 as byte)
  }

  function MakePacket(T: Topology, m: Message, xmt: nat, i: nat): Packet
    requires m.cha < T.Channels() && T.widths[m.cha] > 0
  {
    var width := T.widths[m.cha];
    Packet(m.src, m.dst, T.NodeOf(m.dst), m.cha, xmt, |m.data| % WORD32, i, PacketCount(|m.data|, width), m.start,
           Chunk(m.data, width, i))
  }

  function Packetize(T: Topology, m: Message, xmt: nat): seq<Packet>
    requires m.cha < T.Channels() && T.widths[m.cha] > 0
  {
    seq(PacketCount(|m.data|, T.widths[m.cha]), i requires 0 <= i => MakePacket(T, m, xmt, i))
  }

  // ----- Choosing the packet a node admits -----

  datatype Choice = NoChoice | FromLink(k: NodeId, c: nat) | FromPort(q: PortId, c: nat)

  datatype Arbitration = Arbitration(rxPtr: nat, sdPtr: nat, choice: Choice)

  /** The lowest occupied channel at or above `c`. */
  function FirstFull(slots: Slots, c: nat): Option<nat>
    decreases |slots| - c
  {
    if c >= |slots| then None else if slots[c].Some? then Some(c) else FirstFull(slots, c + 1)
  }

  function FirstQueued(queues: seq<seq<Packet>>, c: nat): Option<nat>
    decreases |queues| - c
  {
    if c >= |queues| then None else if queues[c] != [] then Some(c) else FirstQueued(queues, c + 1)
  }

  function Inc(ptr: nat, n: nat): nat {
    if n == 0 then ptr else (ptr + 1) % n
  }

  /** Round-robin scan of the incoming links, at most `tries` of them from `ptr` on. */
  function ScanLinks(froms: seq<NodeId>, rx: map<NodeId, Slots>, ptr: nat, tries: nat): (nat, Choice)
    decreases tries
  {
    if tries == 0 || ptr >= |froms| || froms[ptr] !in rx then (ptr, NoChoice)
    else if FirstFull(rx[froms[ptr]], 0).Some? then (ptr, FromLink(froms[ptr], FirstFull(rx[froms[ptr]], 0).value))
    else ScanLinks(froms, rx, Inc(ptr, |froms|), tries - 1)
  }

  function ScanPorts(ids: seq<PortId>, ports: map<PortId, Port>, ptr: nat, tries: nat): (nat, Choice)
    decreases tries
  {
    if tries == 0 || ptr >= |ids| || ids[ptr] !in ports then (ptr, NoChoice)
    else if FirstQueued(ports[ids[ptr]].sendBuf, 0).Some?
    then (ptr, FromPort(ids[ptr], FirstQueued(ports[ids[ptr]].sendBuf, 0).value))
    else ScanPorts(ids, ports, Inc(ptr, |ids|), tries - 1)
  }

  function Arbitrate(froms: seq<NodeId>, ids: seq<PortId>, v: View): Arbitration {
    var links := ScanLinks(froms, v.rx, v.node.rxPtr, |froms|);
    if links.1 != NoChoice then Arbitration(links.0, v.node.sdPtr, links.1)
    else
      var locals := ScanPorts(ids, v.ports, v.node.sdPtr, |ids|);
      Arbitration(links.0, locals.0, locals.1)
  }

  function Chosen(v: View, choice: Choice): Option<Packet> {
    match choice
    case NoChoice => None
    case FromLink(k, c) => if k in v.rx && c < |v.rx[k]| then v.rx[k][c] else None
    case FromPort(q, c) =>
      if q in v.ports && c < |v.ports[q].sendBuf| && v.ports[q].sendBuf[c] != [] then Some(v.ports[q].sendBuf[c][0])
      else None
  }

  function Accepts(T: Topology, n: NodeId, buffered: nat, p: Packet): bool {
    p.tgt == n || !T.config.congestion.enabled || buffered < T.config.congestion.limit
  }

  /** The choice of arbitration, if the node has room for it. */
  function Taken(T: Topology, n: NodeId, v: View): Choice
  {
    var choice := Arbitrate(T.Rxs(n), T.Attached(n), v).choice;
    var p := Chosen(v, choice);
    if p.Some? && Accepts(T, n, v.node.buffered, p.value) then choice else NoChoice
  }

  /** The packet the node admits this tick. */
  function Entering(T: Topology, n: NodeId, v: View): Option<Packet>
  {
    Chosen(v, Taken(T, n, v))
  }

  // ----- Detaching and admitting it -----

  /** The incoming outputs once the admitted packet is gone. */
  function RxOut(T: Topology, n: NodeId, v: View): map<NodeId, Slots>
  {
    match Taken(T, n, v)
    case FromLink(k, c) => v.rx[k := v.rx[k][c := None]]
    case _ => v.rx
  }

  function PopSend(port: Port, c: nat): Port
    requires c < |port.sendBuf| && port.sendBuf[c] != []
  {
    port.(sendBuf := port.sendBuf[c := port.sendBuf[c][1..]])
  }

  /** The ports once the admitted packet is gone, before any delivery. */
  function Popped(T: Topology, n: NodeId, v: View): map<PortId, Port>
  {
    match Taken(T, n, v)
    case FromPort(q, c) => v.ports[q := PopSend(v.ports[q], c)]
    case _ => v.ports
  }

  function PushRecv(port: Port, c: nat, packs: seq<Packet>): Port {
    if c < |port.recvBuf| then port.(recvBuf := port.recvBuf[c := port.recvBuf[c] + packs]) else port
  }

  /** Insertion before the first packet whose index is not smaller. */
  function InsertByIdx(l: seq<Packet>, p: Packet): seq<Packet> {
    if l == [] || l[0].idx >= p.idx then [p] + l else [l[0]] + InsertByIdx(l[1..], p)
  }

  /** The packets of transfer `xmt` collected so far. */
  function Collected(orderBuf: OrderBuf, xmt: nat): seq<Packet> {
    if xmt in orderBuf then orderBuf[xmt] else []
  }

  /** Delivery at the destination node; an unattached port is an exception in the source. */
  function Deliver(ports: map<PortId, Port>, orderBuf: OrderBuf, p: Packet): (map<PortId, Port>, OrderBuf) {
    if p.dst !in ports then (ports, orderBuf)
    else if p.cnt <= 1 then (ports[p.dst := PushRecv(ports[p.dst], p.cha, [p])], orderBuf)
    else
      var l := InsertByIdx(Collected(orderBuf, p.xmt), p);
      if |l| == p.cnt then (ports[p.dst := PushRecv(ports[p.dst], p.cha, l)], orderBuf - {p.xmt})
      else (ports, orderBuf[p.xmt := l])
  }

  /** Ports and reassembly lists after the node's admission. */
  function Handed(T: Topology, n: NodeId, v: View): (map<PortId, Port>, OrderBuf)
  {
    var p := Entering(T, n, v);
    if p.Some? && p.value.tgt == n then Deliver(Popped(T, n, v), v.node.orderBuf, p.value)
    else (Popped(T, n, v), v.node.orderBuf)
  }

  /** The pipeline after the node's admission. */
  function PipeIn(T: Topology, n: NodeId, v: View): seq<Piped>
  {
    var p := Entering(T, n, v);
    if p.Some? && p.value.tgt != n then v.node.pipeline + [Piped(p.value, T.config.latency)] else v.node.pipeline
  }

  // ----- Ageing the pipeline and releasing packets to the links -----

  predicate SlotFree(tx: map<NodeId, Slots>, m: NodeId, c: nat) {
    m in tx && c < |tx[m]| && tx[m][c].None?
  }

  /** The packet has waited long enough and the input of its next link is free. */
  predicate Leaves(T: Topology, n: NodeId, e: Piped, tx: map<NodeId, Slots>) {
    e.remain == 0 && SlotFree(tx, T.Next(n, e.pack.tgt), e.pack.cha)
  }

  function Filled(T: Topology, n: NodeId, e: Piped, tx: map<NodeId, Slots>): map<NodeId, Slots> {
    var m := T.Next(n, e.pack.tgt);
    if Leaves(T, n, e, tx) then tx[m := tx[m][e.pack.cha := Some(e.pack)]] else tx
  }

  function Aged(e: Piped): Piped {
    if e.remain > 0 then e.(remain := e.remain - 1) else e
  }

  /** The pipeline after one pass over it, and the link inputs it has filled. */
  function Release(T: Topology, n: NodeId, pipe: seq<Piped>, tx: map<NodeId, Slots>): (seq<Piped>, map<NodeId, Slots>)
    decreases |pipe|
  {
    if pipe == [] then ([], tx)
    else
      var rest := Release(T, n, pipe[1..], Filled(T, n, pipe[0], tx));
      if Leaves(T, n, pipe[0], tx) then rest else ([Aged(pipe[0])] + rest.0, rest.1)
  }

  /** The congestion counter follows the pipeline, and only while congestion control is on. */
  function BufferedAfter(T: Topology, buffered: nat, before: nat, entered: nat, after: nat): nat {
    if T.config.congestion.enabled && 0 <= entered - after && before <= entered
       && entered - after <= buffered + (entered - before)
    then buffered + (entered - before) - (entered - after)
    else buffered
  }

  function UpdateCongestion(T: Topology, node: Node): Node {
    if !T.config.congestion.enabled then node.(congested := false)
    else if !node.congested && node.buffered >= T.config.congestion.high then node.(congested := true)
    else if node.congested && node.buffered <= T.config.congestion.low then node.(congested := false)
    else node
  }

  /** One node's part of a tick, as a function of its own view. */
  function ProcessNode(T: Topology, n: NodeId, v: View): View
  {
    var a, taken := Arbitrate(T.Rxs(n), T.Attached(n), v), Taken(T, n, v);
    var handed, pipe := Handed(T, n, v), PipeIn(T, n, v);
    var r := Release(T, n, pipe, v.tx);
    var node := Node(
                  r.0, handed.1,
                  if taken.FromLink? then Inc(a.rxPtr, |T.Rxs(n)|) else a.rxPtr,
                  if taken.FromPort? then Inc(a.sdPtr, |T.Attached(n)|) else a.sdPtr,
                  BufferedAfter(T, v.node.buffered, |v.node.pipeline|, |pipe|, |r.0|),
                  v.node.congested);
    View(UpdateCongestion(T, node), handed.0, RxOut(T, n, v), r.1)
  }

  // ----- Moving packets across a link -----

  /** The channels of a link from `c` on, with `total` bytes already moved this tick (32-bit sums). */
  function Transfer(linkWidth: nat, e: Edge, c: nat, total: nat): Edge
    decreases |e.input| - c
  {
    if c >= |e.input| || c >= |e.output| || total >= linkWidth then e
    else if e.input[c].Some? && e.output[c].None? then
      var sum := (total + |e.input[c].value.data|) % WORD32;
      if total > 0 && sum > linkWidth then Transfer(linkWidth, e, c + 1, total)
      else Transfer(linkWidth, Edge(e.input[c := None], e.output[c := e.input[c]]), c + 1, sum)
    else Transfer(linkWidth, e, c + 1, total)
  }

  // ----- A whole tick -----

  /** The containers have the keys the topology prescribes. */
  predicate Wired(T: Topology, s: Net) {
    && s.nodes.Keys == T.nodes && s.ports.Keys == T.port2node.Keys && s.edges.Keys == T.links
    && (forall p {:trigger s.ports[p]} :: p in s.ports ==> T.NodeOf(p) in s.nodes)
    && (forall l {:trigger s.edges[l]} :: l in s.edges ==> l.0 in s.nodes && l.1 in s.nodes)
  }

  /** All nodes at once: every node's part is computed from the state at the start of the tick. */
  function NodePhase(T: Topology, s: Net): Net {
    Net(map n | n in s.nodes :: ProcessNode(T, n, GetView(T, s, n)).node,
        map p | p in s.ports :: PortAfter(T, s, p),
        map l | l in s.edges :: Edge(InputAfter(T, s, l), OutputAfter(T, s, l)),
        s.tick, s.nextXmt)
  }

  function PortAfter(T: Topology, s: Net, p: PortId): Port
    requires p in s.ports
  {
    var n := T.NodeOf(p);
    var after := if n in s.nodes then ProcessNode(T, n, GetView(T, s, n)).ports else map[];
    if p in after then after[p] else s.ports[p]
  }

  function InputAfter(T: Topology, s: Net, l: Link): Slots
    requires l in s.edges
  {
    var after := if l.0 in s.nodes then ProcessNode(T, l.0, GetView(T, s, l.0)).tx else map[];
    if l.1 in after then after[l.1] else s.edges[l].input
  }

  function OutputAfter(T: Topology, s: Net, l: Link): Slots
    requires l in s.edges
  {
    var after := if l.1 in s.nodes then ProcessNode(T, l.1, GetView(T, s, l.1)).rx else map[];
    if l.0 in after then after[l.0] else s.edges[l].output
  }

  function EdgePhase(T: Topology, s: Net): Net {
    s.(edges := map l | l in s.edges :: Transfer(T.config.linkWidth, s.edges[l], 0, 0))
  }

  function Refresh(T: Topology, s: Net): Net {
    s.(nodes := map n | n in s.nodes :: UpdateCongestion(T, s.nodes[n]))
  }

  function Tick(T: Topology, s: Net): Net {
    var moved := Refresh(T, EdgePhase(T, NodePhase(T, s)));
    moved.(tick := s.tick + 1)
  }

  // ----- Sending and receiving -----

  datatype NocError = UnknownPort(port: PortId) | UnknownChannel(channel: nat) | MessageTooLong | TooManyPackets

  function Queue(port: Port, c: nat): seq<Packet> {
    if c < |port.sendBuf| then port.sendBuf[c] else []
  }

  function RecvAt(s: Net, q: PortId, c: nat): seq<Packet> {
    if q in s.ports && c < |s.ports[q].recvBuf| then s.ports[q].recvBuf[c] else []
  }

  predicate CanSend(T: Topology, s: Net, port: PortId, channel: nat)
    requires port in s.ports && T.NodeOf(port) in s.nodes
  {
    var node := s.nodes[T.NodeOf(port)];
    && Queue(s.ports[port], channel) == []
    && !(T.config.congestion.enabled && (node.congested || node.buffered >= T.config.congestion.limit))
  }

  predicate CanRecv(s: Net, port: PortId, channel: nat) {
    var buf := RecvAt(s, port, channel);
    buf != [] && |buf| >= buf[0].cnt
  }

  function Reserve(ports: map<PortId, Port>, q: PortId, c: nat): map<PortId, Port> {
    if q in ports && c < |ports[q].reserved|
    then ports[q := ports[q].(reserved := ports[q].reserved[c := ports[q].reserved[c] + 1])] else ports
  }

  function Enqueue(ports: map<PortId, Port>, q: PortId, c: nat, packs: seq<Packet>): map<PortId, Port> {
    if q in ports && c < |ports[q].sendBuf|
    then ports[q := ports[q].(sendBuf := ports[q].sendBuf[c := ports[q].sendBuf[c] + packs])] else ports
  }

  function ReservedAt(s: Net, q: PortId, c: nat): nat {
    if q in s.ports && c < |s.ports[q].reserved| then s.ports[q].reserved[c] else 0
  }

  /** The state after accepting message `m`. */
  function Accept(T: Topology, s: Net, m: Message): Net
    requires m.cha < T.Channels() && T.widths[m.cha] > 0
  {
    var ports := if T.config.slots > 0 then Reserve(s.ports, m.dst, m.cha) else s.ports;
    s.(ports := Enqueue(ports, m.src, m.cha, Packetize(T, m, s.nextXmt)), nextXmt := s.nextXmt + 1)
  }

  /** Acceptance (`true`), refusal that the caller must retry (`false`), or an exception. */
  function SendOutcome(T: Topology, s: Net, m: Message): Result<bool, NocError>
    requires forall q {:trigger T.NodeOf(q)} :: q in s.ports ==> T.NodeOf(q) in s.nodes
    requires m.cha < T.Channels() ==> T.widths[m.cha] > 0
  {
    if m.src !in s.ports then Failure(UnknownPort(m.src))
    else if m.dst !in s.ports then Failure(UnknownPort(m.dst))
    else if m.cha >= T.Channels() then Failure(UnknownChannel(m.cha))
    else if !CanSend(T, s, m.src, m.cha) then Success(false)
    else if T.config.slots > 0 && |m.data| > T.config.maxBytes then Failure(MessageTooLong)
    else if T.config.slots > 0 && ReservedAt(s, m.dst, m.cha) >= T.config.slots then Success(false)
    else if PacketCount(|m.data|, T.widths[m.cha]) > MAX_PACKETS then Failure(TooManyPackets)
    else Success(true)
  }

  /** The bytes of a sequence of packets. */
  function Payload(packs: seq<Packet>): seq<byte> {
    if packs == [] then [] else Payload(packs[..|packs| - 1]) + packs[|packs| - 1].data
  }

  /** `std::vector::resize`: cut, or extend with zeros. */
  function Resize(bytes: seq<byte>, len: nat): seq<byte> {
    if len <= |bytes| then bytes[..len] else bytes + seq(len - |bytes|, _ => 0 as byte)
  }

  /** The message at the front of a receive buffer, as `recv` hands it out. */
  function FrontMessage(s: Net, port: PortId, channel: nat): seq<byte>
    requires CanRecv(s, port, channel)
  {
    var buf := RecvAt(s, port, channel);
    Resize(Payload(buf[..buf[0].cnt]), buf[0].len)
  }

  /** The state after handing it out. */
  function TakeFront(T: Topology, s: Net, port: PortId, channel: nat): Net
    requires CanRecv(s, port, channel)
  {
    var buf, p := RecvAt(s, port, channel), s.ports[port];
    var reserved :=
      if T.config.slots > 0 && channel < |p.reserved| && p.reserved[channel] > 0
      then p.reserved[channel := p.reserved[channel] - 1] else p.reserved;
    s.(ports := s.ports[port := p.(recvBuf := p.recvBuf[channel := buf[buf[0].cnt..]], reserved := reserved)])
  }
}
