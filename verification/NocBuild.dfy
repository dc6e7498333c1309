/** Building the network: which inputs are accepted, and that what is built from them is well-formed. */
module NocBuild {
  import opened Arith
  import opened Wrappers
  import opened RouteTable
  import opened NocState

  datatype ConfigError =
    | NoChannels | NoLinkWidth | NoSizeLimit | ZeroWidth(channel: nat) | TooWide(channel: nat)
    | NoBuffer | HighAboveLimit | LowAboveHigh

  datatype BuildError =
    | BadConfig(fault: ConfigError) | SizeMismatch | NoPorts | DuplicatePort(port: PortId) | BadRoute(cause: RouteError)
    | UnknownSource(src: NodeId) | UnknownNextHop(next: NodeId)

  /**
   Channels of 1 to 65536 bytes, at least one of them; a link width; a size limit for bounded reception; and watermarks
   within a buffer.
   */
  predicate ConfigAccepted(widths: seq<nat>, config: Config) {
    && WidthsAccepted(widths) && config.linkWidth >= 1 && (config.slots >= 1 ==> config.maxBytes >= 1)
    && (config.congestion.enabled ==> WatermarksAccepted(config.congestion))
  }

  predicate WidthsAccepted(widths: seq<nat>) {
    |widths| >= 1 && forall c :: 0 <= c < |widths| ==> 1 <= widths[c] <= 65536
  }

  predicate WatermarksAccepted(cc: Congestion) { cc.limit >= 1 && cc.low <= cc.high <= cc.limit }

  /** The first channel whose width is out of range. */
  predicate FirstBadWidth(widths: seq<nat>, c: nat) {
    c < |widths| && !(1 <= widths[c] <= 65536) && WidthsBefore(widths, c)
  }

  predicate WidthsBefore(widths: seq<nat>, c: nat) {
    forall d :: 0 <= d < c && d < |widths| ==> 1 <= widths[d] <= 65536
  }

  /** What each fault says; whatever is checked before it is in order. */
  predicate Faulty(widths: seq<nat>, config: Config, fault: ConfigError) {
    var reception, cc := config.slots >= 1 ==> config.maxBytes >= 1, config.congestion;
    match fault
    case NoChannels => widths == []
    case NoLinkWidth => widths != [] && config.linkWidth == 0
    case NoSizeLimit => widths != [] && config.linkWidth >= 1 && !reception
    case ZeroWidth(c) => config.linkWidth >= 1 && reception && FirstBadWidth(widths, c) && widths[c] == 0
    case TooWide(c) => config.linkWidth >= 1 && reception && FirstBadWidth(widths, c) && widths[c] > 65536
    case _ =>
      && WidthsAccepted(widths) && config.linkWidth >= 1 && reception && cc.enabled
      && match fault
         case NoBuffer => cc.limit == 0
         case HighAboveLimit => 0 < cc.limit < cc.high
         case _ => 0 < cc.limit && cc.high <= cc.limit && cc.high < cc.low
  }

  /** The checks of the configuration, in the order of the code: which inputs pass, and which fault the others have. */
  method ValidateConfig(widths: seq<nat>, config: Config) returns (error: Option<ConfigError>)
    ensures error.None? <==>
            && |widths| >= 1 && (forall c :: 0 <= c < |widths| ==> 1 <= widths[c] <= 65536)
            && config.linkWidth >= 1 && (config.slots >= 1 ==> config.maxBytes >= 1)
            && (config.congestion.enabled ==>
                  && 1 <= config.congestion.limit
                  && config.congestion.low <= config.congestion.high <= config.congestion.limit)
    ensures forall fault :: error == Some(fault) <==> Faulty(widths, config, fault)
  {
    if |widths| == 0 {
      return Some(NoChannels);
    }
    if config.linkWidth == 0 {
      return Some(NoLinkWidth);
    }
    if config.slots != 0 && config.maxBytes == 0 {
      return Some(NoSizeLimit);
    }
    for c := 0 to |widths|
      invariant WidthsBefore(widths, c)
    {
      if widths[c] == 0 {
        return Some(ZeroWidth(c));
      }
      if widths[c] > MAX_WIDTH {
        return Some(TooWide(c));
      }
    }
    if config.congestion.enabled {
      if config.congestion.limit == 0 {
        return Some(NoBuffer);
      }
      if config.congestion.high > config.congestion.limit {
        return Some(HighAboveLimit);
      }
      if config.congestion.low > config.congestion.high {
        return Some(LowAboveHigh);
      }
    }
    return None;
  }

  /** A node without its ports: a source or a next hop that the table uses although it is not in the network. */
  ghost predicate Unknown(nodes: set<NodeId>, route: Table, error: BuildError) {
    match error
    case UnknownSource(src) => src !in nodes && exists b :: UsedHop(route, src, b)
    case UnknownNextHop(next) => next !in nodes && exists a :: a in nodes && UsedHop(route, a, next)
    case _ => false
  }

  /** `port` is listed twice, the second time before any other port is. */
  ghost predicate FirstDuplicate(portIds: seq<PortId>, port: PortId) {
    exists i :: 0 <= i < |portIds| && portIds[i] == port && port in portIds[..i] && Distinct(portIds[..i])
  }

  /** The table sends packets for some other node straight from `a` to `b`. */
  ghost predicate UsedHop(route: Table, a: NodeId, b: NodeId) {
    a != b && exists dst :: dst != a && Lookup(route, a, dst) == Some(b)
  }

  /** Every hop the table uses, whoever it is for, joins two nodes of the network. */
  ghost predicate HopsKnown(nodes: set<NodeId>, route: Table) {
    forall a, b :: UsedHop(route, a, b) ==> a in nodes && b in nodes
  }

  /** What `build_network` accepts. */
  ghost predicate Buildable(portIds: seq<PortId>, portToNode: seq<NodeId>, widths: seq<nat>, route: Table,
                            config: Config) {
    && ConfigAccepted(widths, config) && |portIds| == |portToNode| && portIds != [] && Distinct(portIds)
    && AllReachable(Elements(portToNode), route) && HopsKnown(Elements(portToNode), route)
  }

  /** The elements of a set in increasing order, as the ordered containers are traversed. */
  method Ordered(s: set<nat>) returns (q: seq<nat>)
    ensures Increasing(q) && Distinct(q) && forall x :: x in q <==> x in s
  {
    q := [];
    var rest := s;
    while rest != {}
      invariant Increasing(q) && rest <= s
      invariant forall x :: x in s <==> x in q || x in rest
      invariant forall x, y :: x in q && y in rest ==> x < y
      decreases |rest|
    {
      var least := Least(rest);
      forall i | 0 <= i < |q| ensures q[i] < least { assert q[i] in q; }
      q := q + [least];
      rest := rest - {least};
    }
  }

  method Least(s: set<nat>) returns (least: nat)
    requires s != {}
    ensures least in s && forall x :: x in s ==> least <= x
  {
    var x :| x in s;
    least := x;
    var rest := s - {x};
    while rest != {}
      invariant least in s && rest <= s
      invariant forall y :: y in s && y !in rest ==> least <= y
      decreases |rest|
    {
      var y :| y in rest;
      if y < least {
        least := y;
      }
      rest := rest - {y};
    }
  }

  /** The entries of one source, `done` of them visited. */
  ghost predicate EntryHop(route: Table, src: NodeId, done: set<NodeId>, b: NodeId) {
    src != b && exists dst :: dst in done && dst != src && Lookup(route, src, dst) == Some(b)
  }

  /** One source's entries: both directions of every hop used, or the first unknown node met. */
  method EdgesFrom(nodes: set<NodeId>, route: Table, src: NodeId, before: set<Link>)
    returns (error: Option<BuildError>, links: set<Link>)
    requires src in route
    ensures error.None? <==> forall b :: UsedHop(route, src, b) ==> src in nodes && b in nodes
    ensures error.Some? ==> Unknown(nodes, route, error.value)
    ensures error.None? ==> forall l ::
                l in links <==>
                     l in before || (l.0 == src && UsedHop(route, src, l.1)) || (l.1 == src && UsedHop(route, src, l.0))
  {
    links := before;
    var rest := route[src].Keys;
    ghost var done := {};
    while rest != {}
      invariant done + rest == route[src].Keys && done !! rest
      invariant forall b :: EntryHop(route, src, done, b) ==> src in nodes && b in nodes
      invariant forall l :: l in links <==>
                            l in before || (l.0 == src && EntryHop(route, src, done, l.1))
                            || (l.1 == src && EntryHop(route, src, done, l.0))
      decreases |rest|
    {
      var dst :| dst in rest;
      var next := route[src][dst];
      OneMoreEntry(route, src, done, dst);
      if src != dst && next != src {
        assert UsedHop(route, src, next) by { assert Lookup(route, src, dst) == Some(next); }
        if src !in nodes {
          return Some(UnknownSource(src)), {};
        }
        if next !in nodes {
          return Some(UnknownNextHop(next)), {};
        }
        links := links + {(src, next), (next, src)};
      }
      rest, done := rest - {dst}, done + {dst};
    }
    EveryEntry(route, src, done);
    return None, links;
  }

  lemma OneMoreEntry(route: Table, src: NodeId, done: set<NodeId>, dst: NodeId)
    requires src in route && dst in route[src]
    ensures forall b :: EntryHop(route, src, done + {dst}, b)
                        <==> EntryHop(route, src, done, b)
                             || (src != dst && route[src][dst] != src && b == route[src][dst])
  {
    forall b: nat ensures EntryHop(route, src, done + {dst}, b)
                     <==> EntryHop(route, src, done, b)
                          || (src != dst && route[src][dst] != src && b == route[src][dst])
    {
      if EntryHop(route, src, done, b) {
        var d :| d in done && d != src && Lookup(route, src, d) == Some(b);
        assert d in done + {dst};
      }
      if src != dst && route[src][dst] != src && b == route[src][dst] {
        assert dst in done + {dst} && Lookup(route, src, dst) == Some(b);
      }
    }
  }

  lemma EveryEntry(route: Table, src: NodeId, done: set<NodeId>)
    requires src in route && done == route[src].Keys
    ensures forall b :: EntryHop(route, src, done, b) <==> UsedHop(route, src, b)
  {
    forall b: nat ensures EntryHop(route, src, done, b) <==> UsedHop(route, src, b) {
      if UsedHop(route, src, b) {
        var dst :| dst != src && Lookup(route, src, dst) == Some(b);
        assert dst in done;
      }
    }
  }

  /** All links: both directions of every hop the table uses. */
  method CollectEdges(nodes: set<NodeId>, route: Table) returns (error: Option<BuildError>, links: set<Link>)
    ensures error.None? <==> HopsKnown(nodes, route)
    ensures error.Some? ==> Unknown(nodes, route, error.value)
    ensures error.None? ==> forall l :: l in links <==> UsedHop(route, l.0, l.1) || UsedHop(route, l.1, l.0)
  {
    hide UsedHop;
    links := {};
    var rest := route.Keys;
    ghost var done := {};
    while rest != {}
      invariant done + rest == route.Keys && done !! rest
      invariant forall a, b :: a in done && UsedHop(route, a, b) ==> a in nodes && b in nodes
      invariant forall l :: l in links <==>
                            (l.0 in done && UsedHop(route, l.0, l.1)) || (l.1 in done && UsedHop(route, l.1, l.0))
      decreases |rest|
    {
      var src :| src in rest;
      error, links := EdgesFrom(nodes, route, src, links);
      if error.Some? {
        return;
      }
      rest, done := rest - {src}, done + {src};
    }
    HopsHaveSources(route);
    return None, links;
  }

  lemma HopsHaveSources(route: Table)
    ensures forall a, b :: UsedHop(route, a, b) ==> a in route
  {
  }

  /** The port map, or the first duplicate. */
  method CollectPorts(portIds: seq<PortId>, portToNode: seq<NodeId>)
    returns (error: Option<BuildError>, port2node: map<PortId, NodeId>)
    requires |portIds| == |portToNode|
    ensures error.None? <==> Distinct(portIds)
    ensures error.Some? ==> error.value.DuplicatePort? && FirstDuplicate(portIds, error.value.port)
    ensures error.None? ==> port2node.Keys == (set p | p in portIds)
                            && forall i :: 0 <= i < |portIds| ==>
                                             portIds[i] in port2node && port2node[portIds[i]] == portToNode[i]
  {
    port2node := map[];
    for i := 0 to |portIds|
      invariant forall j, k :: 0 <= j < k < i ==> portIds[j] != portIds[k]
      invariant forall p :: p in port2node <==> p in portIds[..i]
      invariant forall j ::
          0 <= j < i ==>
            portIds[j] in portIds[..i] && portIds[j] in port2node && port2node[portIds[j]] == portToNode[j]
    {
      assert portIds[..i + 1] == portIds[..i] + [portIds[i]];
      if portIds[i] in port2node {
        var j :| 0 <= j < i && portIds[j] == portIds[i];
        assert Distinct(portIds[..i]) && portIds[i] in portIds[..i];
        return Some(DuplicatePort(portIds[i])), map[];
      }
      port2node := port2node[portIds[i] := portToNode[i]];
    }
    assert portIds[..|portIds|] == portIds;
    return None, port2node;
  }

  /** Per node, the far ends of its incoming links and its ports, each in increasing order. */
  method CollectNeighbours(nodeList: seq<NodeId>, links: set<Link>, port2node: map<PortId, NodeId>)
    returns (rxs: map<NodeId, seq<NodeId>>, attached: map<NodeId, seq<PortId>>)
    ensures forall n :: n in nodeList ==>
                          n in rxs && Increasing(rxs[n]) && Distinct(rxs[n])
                          && forall k :: k in rxs[n] <==> (k, n) in links
    ensures forall n ::
              n in nodeList ==>
                n in attached && Increasing(attached[n]) && Distinct(attached[n])
                && forall p :: p in attached[n] <==> p in port2node && port2node[p] == n
  {
    hide Increasing, Distinct;
    rxs, attached := map[], map[];
    for i := 0 to |nodeList|
      invariant forall n :: n in nodeList[..i] ==> n in rxs && n in attached
      invariant forall n :: n in rxs ==>
                              Increasing(rxs[n]) && Distinct(rxs[n]) && forall k :: k in rxs[n] <==> (k, n) in links
      invariant forall n :: n in attached ==>
                              Increasing(attached[n]) && Distinct(attached[n])
                              && forall p :: p in attached[n] <==> p in port2node && port2node[p] == n
    {
      var n := nodeList[i];
      var froms := Ordered(set l | l in links && l.1 == n :: l.0);
      var ids := Ordered(set p | p in port2node && port2node[p] == n);
      FarEnds(links, n);
      assert nodeList[..i + 1] == nodeList[..i] + [n];
      rxs, attached := rxs[n := froms], attached[n := ids];
    }
    assert nodeList[..|nodeList|] == nodeList;
  }

  lemma FarEnds(links: set<Link>, n: NodeId)
    ensures forall k :: k in (set l | l in links && l.1 == n :: l.0) <==> (k, n) in links
  {
    forall k: nat ensures k in (set l | l in links && l.1 == n :: l.0) <==> (k, n) in links {
      assert (k, n).0 == k;
    }
  }

  /**
   The whole construction. It succeeds exactly on the inputs `Buildable` describes, and what it builds from them is
   well-formed: every hop of every route has its link, and every node knows its links and ports in a fixed order.
   */
  method BuildNetwork(portIds: seq<PortId>, portToNode: seq<NodeId>, widths: seq<nat>, route: Table, config: Config)
    returns (r: Result<Topology, BuildError>)
    requires config.linkWidth < WORD32
    ensures r.Success? <==> Buildable(portIds, portToNode, widths, route, config)
    ensures forall fault :: r == Failure(BadConfig(fault)) <==> Faulty(widths, config, fault)
    ensures r == Failure(SizeMismatch) <==> ConfigAccepted(widths, config) && |portIds| != |portToNode|
    ensures r == Failure(NoPorts) <==> ConfigAccepted(widths, config) && |portIds| == |portToNode| && portIds == []
    ensures var ready := ConfigAccepted(widths, config) && |portIds| == |portToNode| && portIds != [];
            && (r.Failure? && r.error.DuplicatePort? <==> ready && !Distinct(portIds))
            && (r.Failure? && r.error.BadRoute? <==>
                ready && Distinct(portIds) && !AllReachable(Elements(portToNode), route))
    ensures r.Failure? && r.error.DuplicatePort? ==> FirstDuplicate(portIds, r.error.port)
    ensures r.Failure? && r.error.BadRoute? ==>
              exists nodes: seq<NodeId> :: Elements(nodes) == Elements(portToNode) && Distinct(nodes)
                                           && Explains(nodes, route, r.error.cause)
    ensures r.Failure? && (r.error.UnknownSource? || r.error.UnknownNextHop?) ==>
              Unknown(Elements(portToNode), route, r.error)
    ensures r.Success? ==>
              && r.value.Valid()
              && r.value.nodes == Elements(portToNode) && r.value.widths == widths && r.value.route == route
              && r.value.config == config
              && r.value.port2node.Keys == (set p | p in portIds)
              && (forall i :: 0 <= i < |portIds| ==> r.value.NodeOf(portIds[i]) == portToNode[i])
              && (forall l :: l in r.value.links <==> UsedHop(route, l.0, l.1) || UsedHop(route, l.1, l.0))
              && (forall n :: n in r.value.nodes ==> Increasing(r.value.Rxs(n)) && Increasing(r.value.Attached(n)))
  {
    hide UsedHop, AllReachable, HopsKnown, Topology.Valid, Increasing;
    var fault := ValidateConfig(widths, config);
    if fault.Some? {
      return Failure(BadConfig(fault.value));
    }
    if |portIds| != |portToNode| {
      return Failure(SizeMismatch);
    }
    if portIds == [] {
      return Failure(NoPorts);
    }
    var duplicate, port2node := CollectPorts(portIds, portToNode);
    if duplicate.Some? {
      return Failure(duplicate.value);
    }
    var nodes := Elements(portToNode);
    var nodeList := Ordered(nodes);
    assert Elements(nodeList) == nodes;
    var bad := RouteTableValid(nodeList, route);
    if bad.Some? {
      return Failure(BadRoute(bad.value));
    }
    var unknown, links := CollectEdges(nodes, route);
    if unknown.Some? {
      return Failure(unknown.value);
    }
    var rxs, attached := CollectNeighbours(nodeList, links, port2node);
    var T := Topology(nodes, port2node, widths, route, config, links, rxs, attached);
    NodesOfPorts(portIds, portToNode, T);
    BuiltValid(T, nodeList);
    return Success(T);
  }

  lemma BuiltValid(T: Topology, nodeList: seq<NodeId>)
    requires ConfigAccepted(T.widths, T.config) && T.config.linkWidth < WORD32
    requires AllReachable(T.nodes, T.route) && HopsKnown(T.nodes, T.route) && T.nodes == Elements(nodeList)
    requires forall p :: p in T.port2node ==> T.port2node[p] in T.nodes
    requires forall l :: l in T.links <==> UsedHop(T.route, l.0, l.1) || UsedHop(T.route, l.1, l.0)
    requires forall n :: n in nodeList ==>
                           n in T.rxs && Distinct(T.rxs[n]) && forall k :: k in T.rxs[n] <==> (k, n) in T.links
    requires forall n :: n in nodeList ==>
                           n in T.attached && Distinct(T.attached[n])
                           && forall p :: p in T.attached[n] <==> p in T.port2node && T.port2node[p] == n
    ensures T.Valid()
  {
    hide UsedHop, AllReachable, HopsKnown, Distinct;
    LinksKnown(T);
    assert T.ConfigValid();
    assert forall n :: n in T.nodes ==> n in nodeList;
    assert T.WiringValid();
  }

  lemma NodesOfPorts(portIds: seq<PortId>, portToNode: seq<NodeId>, T: Topology)
    requires |portIds| == |portToNode| && T.nodes == Elements(portToNode) && T.port2node.Keys == (set p | p in portIds)
    requires forall i :: 0 <= i < |portIds| ==> portIds[i] in T.port2node && T.port2node[portIds[i]] == portToNode[i]
    ensures forall p :: p in T.port2node ==> T.port2node[p] in T.nodes
    ensures forall i :: 0 <= i < |portIds| ==> T.NodeOf(portIds[i]) == portToNode[i]
  {
    forall p | p in T.port2node ensures T.port2node[p] in T.nodes {
      assert p in portIds;
      var i :| 0 <= i < |portIds| && portIds[i] == p;
      assert portToNode[i] in portToNode;
    }
  }

  /** Every hop of every route has its link, and links join nodes of the network. */
  lemma LinksKnown(T: Topology)
    requires AllReachable(T.nodes, T.route) && HopsKnown(T.nodes, T.route)
    requires forall l :: l in T.links <==> UsedHop(T.route, l.0, l.1) || UsedHop(T.route, l.1, l.0)
    ensures forall n, t {:trigger T.Next(n, t)} :: n in T.nodes && t in T.nodes && n != t ==>
                                                     (n, T.Next(n, t)) in T.links
    ensures forall l :: l in T.links ==> l.0 in T.nodes && l.1 in T.nodes
  {
    hide UsedHop;
    forall n, t | n in T.nodes && t in T.nodes && n != t ensures (n, T.Next(n, t)) in T.links {
      NextIsUsed(T, n, t);
    }
  }

  lemma NextIsUsed(T: Topology, n: NodeId, t: NodeId)
    requires AllReachable(T.nodes, T.route) && n in T.nodes && t in T.nodes && n != t
    ensures UsedHop(T.route, n, T.Next(n, t))
  {
    assert Reachable(T.nodes, T.route, n, t);
    DistanceStep(T.nodes, T.route, n, t);
    assert Lookup(T.route, n, t) == Some(T.Next(n, t));
  }
}
