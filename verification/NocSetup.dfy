/** Setting up a network on a generated table, as the benchmark does. */
module NocSetup {
  import opened Arith
  import opened Wrappers
  import opened RouteTable
  import RouteRings
  import opened RouteMesh
  import opened NocState
  import opened NocBuild

  datatype Shape = Mesh(cx: Word32, cy: Word32) | Ring | DoubleRing

  datatype SetupError = NotGenerated(cause: RouteRings.GenError) | NotBuilt(reason: BuildError)

  /** What the generator for the shape accepts. */
  ghost predicate Accepts(shape: Shape, nodes: seq<NodeId>) {
    Distinct(nodes) &&
    match shape
    case Mesh(cx, cy) => cx > 0 && cy > 0 && |nodes| == cx * cy
    case _ => nodes != []
  }

  /** Its 32-bit index arithmetic does not wrap around. */
  predicate InRange(shape: Shape, nodes: seq<NodeId>) {
    match shape
    case Mesh(cx, cy) => Unwrapped(cx, cy, true)
    case Ring => |nodes| < WORD32
    case DoubleRing => |nodes| <= WORD32 / 2
  }

  /** How many hops the routes of a shape take from its `i`-th to its `j`-th node. */
  function Steps(shape: Shape, n: nat, i: nat, j: nat): nat
    requires i < n && j < n
  {
    match shape
    case Mesh(cx, cy) => MeshDistance(i, j, cx, cy, true)
    case Ring => RouteRings.Gap(i, j, n)
    case DoubleRing => RouteRings.RingDistance(i, j, n)
  }

  /** All routes of a table over `nodes` have that length. */
  ghost predicate Shaped(shape: Shape, nodes: seq<NodeId>, table: Table) {
    forall i: nat, j: nat ::
      i < |nodes| && j < |nodes| ==>
        ReachesIn(Elements(nodes), table, nodes[i], nodes[j], Steps(shape, |nodes|, i, j))
  }

  method MakeRoute(shape: Shape, nodes: seq<NodeId>) returns (r: Result<Table, RouteRings.GenError>)
    ensures r.Success? <==> Accepts(shape, nodes)
    ensures r.Success? && InRange(shape, nodes) ==>
              && AllReachable(Elements(nodes), r.value) && RouteRings.Within(nodes, r.value)
              && Shaped(shape, nodes, r.value)
  {
    hide AllReachable, RouteRings.Within, RouteRings.Realizes, Distinct, ReachesIn, MeshDistance, RouteRings.Gap,
      RouteRings.RingDistance;
    match shape
    case Mesh(cx, cy) =>
      r := GenrouteMesh2dXY(nodes, cx, cy, true);
    case Ring =>
      r := RouteRings.GenrouteSingleRing(nodes);
    case DoubleRing =>
      r := RouteRings.GenrouteDoubleRing(nodes);
  }

  /** All hops of a generated table join known nodes. */
  lemma GeneratedHops(nodes: seq<NodeId>, table: Table, portToNode: seq<NodeId>)
    requires RouteRings.Within(nodes, table) && Elements(portToNode) == Elements(nodes)
    ensures HopsKnown(Elements(portToNode), table)
  {
    forall a, b | UsedHop(table, a, b) ensures a in Elements(nodes) && b in Elements(nodes) {
      var dst :| dst != a && Lookup(table, a, dst) == Some(b);
      assert Lookup(table, a, dst).Some?;
    }
  }

  /** In a network over such a table those are the distances. */
  lemma ShapedDistances(shape: Shape, nodes: seq<NodeId>, T: Topology)
    requires Shaped(shape, nodes, T.route) && T.nodes == Elements(nodes)
    ensures forall i: nat, j: nat :: i < |nodes| && j < |nodes| ==>
                                       T.Dist(nodes[i], nodes[j]) == Steps(shape, |nodes|, i, j)
  {
    hide Steps, ReachesIn;
    forall i: nat, j: nat | i < |nodes| && j < |nodes|
      ensures T.Dist(nodes[i], nodes[j]) == Steps(shape, |nodes|, i, j)
    {
      var hops := Steps(shape, |nodes|, i, j);
      assert ReachesIn(T.nodes, T.route, nodes[i], nodes[j], hops);
      HopsUnique(T.nodes, T.route, nodes[i], nodes[j], hops, T.Dist(nodes[i], nodes[j]));
    }
  }

  /**
   A table is generated and a network built over it. That succeeds for every shape, on all ports and nodes that the
   generator and the configuration check accept, as long as the index arithmetic of the generator does not wrap around.
   */
  method SetUp(shape: Shape, nodes: seq<NodeId>, portIds: seq<PortId>, portToNode: seq<NodeId>, widths: seq<nat>,
               config: Config)
    returns (r: Result<Topology, SetupError>)
    requires config.linkWidth < WORD32
    ensures Elements(portToNode) == Elements(nodes) && InRange(shape, nodes) ==>
              (r.Success? <==> && Accepts(shape, nodes) && ConfigAccepted(widths, config)
                               && |portIds| == |portToNode| && portIds != [] && Distinct(portIds))
    ensures r.Failure? && r.error.NotGenerated? <==> !Accepts(shape, nodes)
    ensures r.Success? ==>
              && r.value.Valid() && r.value.nodes == Elements(portToNode)
              && r.value.config == config && r.value.widths == widths
              && r.value.port2node.Keys == (set p | p in portIds)
              && |portIds| == |portToNode|
              && forall i :: 0 <= i < |portIds| ==> r.value.NodeOf(portIds[i]) == portToNode[i]
    ensures r.Success? && Elements(portToNode) == Elements(nodes) && InRange(shape, nodes) ==>
              forall i: nat, j: nat :: i < |nodes| && j < |nodes| ==>
                                         r.value.Dist(nodes[i], nodes[j]) == Steps(shape, |nodes|, i, j)
  {
    hide AllReachable, RouteRings.Within, HopsKnown, Accepts, InRange, ConfigAccepted, Topology.Valid, Distinct,
      UsedHop, Shaped, Steps, FirstDuplicate, Explains, Unknown, Faulty;
    var route := MakeRoute(shape, nodes);
    if route.Failure? {
      return Failure(NotGenerated(route.error));
    }
    var built := BuildNetwork(portIds, portToNode, widths, route.value, config);
    if Elements(portToNode) == Elements(nodes) && InRange(shape, nodes) {
      GeneratedHops(nodes, route.value, portToNode);
    }
    if built.Failure? {
      return Failure(NotBuilt(built.error));
    }
    if Elements(portToNode) == Elements(nodes) && InRange(shape, nodes) {
      ShapedDistances(shape, nodes, built.value);
    }
    return Success(built.value);
  }
}
