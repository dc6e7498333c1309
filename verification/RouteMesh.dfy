/** The generator of wrap-around meshes with X-before-Y routing. */
module RouteMesh {
  import opened Arith
  import opened Wrappers
  import opened RouteTable
  import opened RouteRings

  // ----- One axis -----

  /** Backwards only on a bidirectional axis, and only if that is strictly shorter. */
  predicate Backward(a: nat, b: nat, n: nat, both: bool)
    requires a < n && b < n
  {
    both && n - RouteRings.Gap(a, b, n) < RouteRings.Gap(a, b, n)
  }

  function AxisStep(a: nat, b: nat, n: nat, both: bool): nat
    requires a < n && b < n
  {
    if Backward(a, b, n, both) then At(a, n - 1, n) else At(a, 1, n)
  }

  /** The shorter way round on a bidirectional axis, the way forward on any other. */
  function AxisDistance(a: nat, b: nat, n: nat, both: bool): nat
    requires a < n && b < n
  {
    if both then RingDistance(a, b, n) else RouteRings.Gap(a, b, n)
  }

  lemma AxisCloser(a: nat, b: nat, n: nat, both: bool)
    requires a < n && b < n
    ensures AxisStep(a, b, n, both) < n && AxisDistance(b, b, n, both) == 0
    ensures a != b ==> AxisDistance(a, b, n, both) == AxisDistance(AxisStep(a, b, n, both), b, n, both) + 1
  {
  }

  // ----- The 32-bit index arithmetic -----

  /** How far `b` is ahead of `a`, as computed: the sum wraps around 32 bits. */
  function Ahead(a: nat, b: nat, n: nat): nat
    requires a < n && b < n
  {
    ((b + n - a) % WORD32) % n
  }

  /** The index that the generator steps to. */
  function Hop32(a: nat, b: nat, n: nat, both: bool): (step: nat)
    requires a < n && b < n
    ensures step < n
  {
    if both && Ahead(b, a, n) < Ahead(a, b, n) then Back(a, n) else At(a, 1, n)
  }

  /** Without wrapping that is the step along the axis; on a longer bidirectional axis some step is not. */
  lemma HopIs(a: nat, b: nat, n: nat, both: bool)
    requires a < n && b < n
    ensures (both ==> n <= WORD32 / 2) && a != b ==> Hop32(a, b, n, both) == AxisStep(a, b, n, both)
  {
    if both && n <= WORD32 / 2 && a != b {
      BackIs(a, n);
      AheadIs(a, b, n);
      hide Back, Ahead;
    }
  }

  lemma AheadIs(a: nat, b: nat, n: nat)
    requires a < n <= WORD32 / 2 && b < n && a != b
    ensures Ahead(a, b, n) == RouteRings.Gap(a, b, n) && Ahead(b, a, n) == n - RouteRings.Gap(a, b, n)
  {
    NoWrap(b + n - a);
    NoWrap(a + n - b);
    Remainders(a, b, n);
  }

  /** On a longer bidirectional axis the step from the last index to the one before goes wrong. */
  lemma WrongStep(n: nat)
    requires WORD32 / 2 < n < WORD32
    ensures Hop32(n - 1, n - 2, n, true) != n - 2
  {
    BackIs(n - 1, n);
    hide Back, Ahead;
  }

  lemma Remainders(a: nat, b: nat, n: nat)
    requires a < n && b < n && a != b
    ensures (b + n - a) % n == RouteRings.Gap(a, b, n) && (a + n - b) % n == n - RouteRings.Gap(a, b, n)
  {
    DivUnique(b + n - a, n, if b < a then 0 else 1);
    DivUnique(a + n - b, n, if a < b then 0 else 1);
  }

  /** The next hop along one axis, with the 32-bit sums and remainders of the code. */
  method AxisHop(a: Word32, b: Word32, n: Word32, both: bool) returns (next: nat)
    requires a < n && b < n && a != b
    ensures next < n && next == Hop32(a, b, n, both)
    ensures (both ==> n <= WORD32 / 2) ==> next == AxisStep(a, b, n, both)
  {
    hide AxisStep;
    var forward := ((b + n - a) % WORD32) % n;
    var backward := ((a + n - b) % WORD32) % n;
    var back := both && backward < forward;
    NoWrap(a + 1);
    AtModulo(a, 1, n);
    next := if back then ((a + n - 1) % WORD32) % n else ((a + 1) % WORD32) % n;
    HopIs(a, b, n, both);
  }

  // ----- Coordinates -----

  lemma Coordinates(x: nat, y: nat, cx: nat, cy: nat)
    requires x < cx && y < cy
    ensures y * cx >= 0 && x + y * cx < cx * cy && (x + y * cx) % cx == x && (x + y * cx) / cx == y
  {
    MulMonotone(0, y, cx);
    MulStep(y, cy, cx);
    DivUnique(x + y * cx, cx, y);
  }

  lemma FromIndex(i: nat, cx: nat, cy: nat)
    requires cx > 0 && i < cx * cy
    ensures i % cx < cx && i / cx < cy && (i / cx) * cx >= 0 && i == i % cx + (i / cx) * cx
  {
    DivModFacts(i, cx);
    if i / cx >= cy {
      MulMonotone(cy, i / cx, cx);
    }
  }

  // ----- The table, by index -----

  /** No index sum of the generator wraps around 32 bits. */
  predicate Unwrapped(cx: nat, cy: nat, both: bool) {
    cx * cy <= WORD32 && (both ==> cx <= WORD32 / 2 && cy <= WORD32 / 2)
  }

  function MeshHop(i: nat, j: nat, cx: nat, cy: nat, both: bool): (next: nat) {
    if i == j || i >= cx * cy || j >= cx * cy then i
    else
      FromIndex(i, cx, cy);
      FromIndex(j, cx, cy);
      var x, y, dx, dy := i % cx, i / cx, j % cx, j / cx;
      MeshStep(x, y, dx, dy, cx, cy, both)
  }

  /** X first: the row changes only once the column is right. */
  function MeshStep(x: nat, y: nat, dx: nat, dy: nat, cx: nat, cy: nat, both: bool): nat
    requires x < cx && dx < cx && y < cy && dy < cy
  {
    if dx != x then Coordinates(Hop32(x, dx, cx, both), y, cx, cy); Hop32(x, dx, cx, both) + y * cx
    else Coordinates(x, Hop32(y, dy, cy, both), cx, cy); x + Hop32(y, dy, cy, both) * cx
  }

  function MeshNext(cx: nat, cy: nat, both: bool): (nat, nat) -> nat {
    (i: nat, j: nat) => MeshHop(i, j, cx, cy, both)
  }

  /** The sum of the distances along the two axes. */
  function MeshDistance(i: nat, j: nat, cx: nat, cy: nat, both: bool): nat {
    if i >= cx * cy || j >= cx * cy then 0
    else
      FromIndex(i, cx, cy);
      FromIndex(j, cx, cy);
      AxisDistance(i % cx, j % cx, cx, both) + AxisDistance(i / cx, j / cx, cy, both)
  }

  function MeshDist(cx: nat, cy: nat, both: bool): (nat, nat) -> nat {
    (i: nat, j: nat) => MeshDistance(i, j, cx, cy, both)
  }

  /** Where a hop leads: along the row until the column is right, then along the column. */
  ghost predicate HopLeads(x: nat, y: nat, dx: nat, dy: nat, k: nat, cx: nat, cy: nat, both: bool)
    requires x < cx && dx < cx && y < cy && dy < cy
  {
    && k < cx * cy
    && (x != dx ==> k / cx == y && k % cx == Hop32(x, dx, cx, both))
    && (x == dx ==> k % cx == x && y != dy && k / cx == Hop32(y, dy, cy, both))
  }

  lemma HopCoordinates(i: nat, j: nat, x: nat, y: nat, dx: nat, dy: nat, cx: nat, cy: nat, both: bool)
    requires x < cx && dx < cx && y < cy && dy < cy && i < cx * cy && j < cx * cy && i != j
    requires i % cx == x && i / cx == y && j % cx == dx && j / cx == dy
    ensures HopLeads(x, y, dx, dy, MeshHop(i, j, cx, cy, both), cx, cy, both)
  {
    hide Hop32;
    FromIndex(i, cx, cy);
    FromIndex(j, cx, cy);
    if dx != x {
      Coordinates(Hop32(x, dx, cx, both), y, cx, cy);
    } else {
      Coordinates(x, Hop32(y, dy, cy, both), cx, cy);
    }
  }

  lemma DistanceAt(i: nat, j: nat, x: nat, y: nat, dx: nat, dy: nat, cx: nat, cy: nat, both: bool)
    requires x < cx && dx < cx && y < cy && dy < cy && i < cx * cy && j < cx * cy
    requires i % cx == x && i / cx == y && j % cx == dx && j / cx == dy
    ensures MeshDistance(i, j, cx, cy, both) == AxisDistance(x, dx, cx, both) + AxisDistance(y, dy, cy, both)
  {
    hide AxisDistance;
  }

  lemma HopCloser(i: nat, j: nat, x: nat, y: nat, dx: nat, dy: nat, cx: nat, cy: nat, both: bool)
    requires x < cx && dx < cx && y < cy && dy < cy && i < cx * cy && j < cx * cy && i != j && Unwrapped(cx, cy, both)
    requires i % cx == x && i / cx == y && j % cx == dx && j / cx == dy
    ensures MeshHop(i, j, cx, cy, both) < cx * cy
    ensures MeshDistance(i, j, cx, cy, both) == MeshDistance(MeshHop(i, j, cx, cy, both), j, cx, cy, both) + 1
  {
    hide MeshHop, AxisStep, Hop32, AxisDistance, MeshDistance;
    var k := MeshHop(i, j, cx, cy, both);
    AxisCloser(x, dx, cx, both);
    AxisCloser(y, dy, cy, both);
    HopIs(x, dx, cx, both);
    HopIs(y, dy, cy, both);
    HopCoordinates(i, j, x, y, dx, dy, cx, cy, both);
    DistanceAt(i, j, x, y, dx, dy, cx, cy, both);
    if x != dx {
      DistanceAt(k, j, AxisStep(x, dx, cx, both), y, dx, dy, cx, cy, both);
    } else {
      DistanceAt(k, j, x, AxisStep(y, dy, cy, both), dx, dy, cx, cy, both);
    }
  }

  lemma MeshCloser(i: nat, j: nat, cx: nat, cy: nat, both: bool)
    requires i < cx * cy && j < cx * cy && Unwrapped(cx, cy, both)
    ensures if i == j then MeshDistance(i, j, cx, cy, both) == 0
            else MeshHop(i, j, cx, cy, both) < cx * cy &&
                 MeshDistance(i, j, cx, cy, both) == MeshDistance(MeshHop(i, j, cx, cy, both), j, cx, cy, both) + 1
  {
    hide MeshHop, MeshDistance, AxisDistance;
    if cx > 0 {
      FromIndex(i, cx, cy);
      FromIndex(j, cx, cy);
      if i == j {
        DistanceAt(i, j, i % cx, i / cx, i % cx, i / cx, cx, cy, both);
        NoDistance(i % cx, i % cx, cx, both);
        NoDistance(i / cx, i / cx, cy, both);
      } else {
        HopCloser(i, j, i % cx, i / cx, j % cx, j / cx, cx, cy, both);
      }
    }
  }

  lemma MeshDescends(cx: nat, cy: nat, both: bool)
    requires Unwrapped(cx, cy, both)
    ensures cx * cy >= 0 && Descends(cx * cy, MeshNext(cx, cy, both), MeshDist(cx, cy, both))
  {
    hide MeshHop, MeshDistance;
    MulMonotone(0, cx, cy);
    var n := cx * cy;
    forall i: nat, j: nat | i < n && j < n
      ensures if i == j then MeshDist(cx, cy, both)(i, j) == 0
              else MeshNext(cx, cy, both)(i, j) < n
                   && MeshDist(cx, cy, both)(i, j) == MeshDist(cx, cy, both)(MeshNext(cx, cy, both)(i, j), j) + 1
    {
      MeshCloser(i, j, cx, cy, both);
    }
  }

  /** Where a packet from the `i`-th to the `j`-th node is after `k` hops. */
  function Visited(i: nat, j: nat, k: nat, cx: nat, cy: nat, both: bool): nat
    decreases k
  {
    if k == 0 then i else MeshHop(Visited(i, j, k - 1, cx, cy, both), j, cx, cy, both)
  }

  /** The X distance that is left after `k` hops. */
  function LeftOver(distance: nat, k: nat): nat { if k <= distance then distance - k else 0 }

  /** One hop takes an X step, as long as one is left; after that it stays in the column. */
  lemma XStep(at: nat, j: nat, x: nat, y: nat, dx: nat, dy: nat, cx: nat, cy: nat, both: bool)
    requires at < cx * cy && j < cx * cy && Unwrapped(cx, cy, both) && x < cx && dx < cx && y < cy && dy < cy
    requires at % cx == x && at / cx == y && j % cx == dx && j / cx == dy
    ensures var next, far := MeshHop(at, j, cx, cy, both), AxisDistance(x, dx, cx, both);
            && next < cx * cy && next % cx < cx && AxisDistance(next % cx, dx, cx, both) == LeftOver(far, 1)
            && (far > 0 ==> next / cx == y)
  {
    hide MeshHop, AxisStep, Hop32, AxisDistance;
    AxisCloser(x, dx, cx, both);
    NoDistance(x, dx, cx, both);
    HopIs(x, dx, cx, both);
    if at == j {
      StandsStill(j, cx, cy, both);
    } else {
      HopCoordinates(at, j, x, y, dx, dy, cx, cy, both);
      DivModFacts(MeshHop(at, j, cx, cy, both), cx);
    }
  }

  lemma {:induction false} XSteps(i: nat, j: nat, k: nat, cx: nat, cy: nat, both: bool)
    requires i < cx * cy && j < cx * cy && Unwrapped(cx, cy, both) && cx > 0 && i % cx < cx && j % cx < cx
    ensures var at, far := Visited(i, j, k, cx, cy, both), AxisDistance(i % cx, j % cx, cx, both);
            && at < cx * cy && at % cx < cx && AxisDistance(at % cx, j % cx, cx, both) == LeftOver(far, k)
            && (k <= far ==> at / cx == i / cx)
    decreases k
  {
    hide MeshHop, AxisDistance;
    if k > 0 {
      XSteps(i, j, k - 1, cx, cy, both);
      var at := Visited(i, j, k - 1, cx, cy, both);
      FromIndex(at, cx, cy);
      FromIndex(j, cx, cy);
      XStep(at, j, at % cx, at / cx, j % cx, j / cx, cx, cy, both);
    }
  }

  /**
   Following the generated table, a packet stays in its row until it has taken all its X steps, and in the right column
   from then on.
   */
  lemma {:induction false} XBeforeY(nodes: seq<NodeId>, table: Table, i: nat, j: nat, k: nat, cx: nat, cy: nat,
                                    both: bool)
    requires Distinct(nodes) && |nodes| == cx * cy && Realizes(nodes, table, MeshNext(cx, cy, both))
    requires i < |nodes| && j < |nodes| && cx > 0 && Unwrapped(cx, cy, both)
    ensures i % cx < cx && j % cx < cx
    ensures var at, far := Visited(i, j, k, cx, cy, both), AxisDistance(i % cx, j % cx, cx, both);
            && at < |nodes| && Walk(table, nodes[i], nodes[j], k) == nodes[at]
            && (k <= far ==> at / cx == i / cx) && (k >= far ==> at % cx == j % cx)
    decreases k
  {
    hide MeshHop, AxisDistance, Distinct;
    FromIndex(i, cx, cy);
    FromIndex(j, cx, cy);
    XSteps(i, j, k, cx, cy, both);
    NoDistance(Visited(i, j, k, cx, cy, both) % cx, j % cx, cx, both);
    if k > 0 {
      XBeforeY(nodes, table, i, j, k - 1, cx, cy, both);
      var at := Visited(i, j, k - 1, cx, cy, both);
      assert Row(nodes, table, MeshNext(cx, cy, both), at);
      assert Entry(nodes, table, MeshNext(cx, cy, both), at, j);
    }
  }

  lemma NoDistance(a: nat, b: nat, n: nat, both: bool)
    requires a < n && b < n
    ensures AxisDistance(a, b, n, both) == 0 <==> a == b
  {
  }

  lemma StandsStill(i: nat, cx: nat, cy: nat, both: bool)
    ensures MeshHop(i, i, cx, cy, both) == i
  {
  }

  // ----- The generator -----

  /** The entries for the first `count` nodes have been made. */
  ghost predicate RowPrefix(nodes: seq<NodeId>, table: Table, next: (nat, nat) -> nat, i: nat, count: nat)
    requires i < |nodes| && count <= |nodes|
  {
    forall j: nat :: j < count ==> Entry(nodes, table, next, i, j)
  }

  lemma OneMoreTarget(nodes: seq<NodeId>, table: Table, next: (nat, nat) -> nat, i: nat, j: nat)
    requires Distinct(nodes) && i < |nodes| && j < |nodes| && next(i, j) < |nodes|
    requires RowsDone(nodes, table, next, i) && Within(nodes, table) && RowPrefix(nodes, table, next, i, j)
    ensures var table' := RouteInsert(table, nodes[i], nodes[j], nodes[next(i, j)]);
            && RowsDone(nodes, table', next, i) && Within(nodes, table') && RowPrefix(nodes, table', next, i, j + 1)
            && (Entry(nodes, table, next, i, i) ==> Entry(nodes, table', next, i, i))
  {
    hide Entry, RouteInsert, Within, RowsDone;
    OneMoreEntry(nodes, table, next, i, j);
    forall l: nat | l < j ensures Entry(nodes, RouteInsert(table, nodes[i], nodes[j], nodes[next(i, j)]), next, i, l) {
      assert Entry(nodes, table, next, i, l);
    }
  }

  lemma PrefixIsRow(nodes: seq<NodeId>, table: Table, next: (nat, nat) -> nat, i: nat)
    requires i < |nodes| && RowsDone(nodes, table, next, i) && RowPrefix(nodes, table, next, i, |nodes|)
    ensures RowsDone(nodes, table, next, i + 1)
  {
    assert Row(nodes, table, next, i);
  }

  lemma OwnEntry(nodes: seq<NodeId>, table: Table, next: (nat, nat) -> nat, i: nat)
    requires i < |nodes| && RowPrefix(nodes, table, next, i, i) && Entry(nodes, table, next, i, i)
    ensures RowPrefix(nodes, table, next, i, i + 1)
  {
  }

  lemma NoTargets(nodes: seq<NodeId>, table: Table, next: (nat, nat) -> nat, i: nat)
    requires i < |nodes|
    ensures RowPrefix(nodes, table, next, i, 0)
  {
  }

  /** A table made so far: nodes past the 2^32nd, which no 32-bit index denotes, have no entries. */
  ghost predicate Inside(nodes: seq<NodeId>, table: Table) {
    |nodes| > WORD32 ==> Within(nodes[..WORD32], table)
  }

  lemma InsertInside(nodes: seq<NodeId>, table: Table, i: nat, j: nat, k: nat)
    requires i < |nodes| && j < |nodes| && k < |nodes| && Inside(nodes, table)
    ensures i % WORD32 < |nodes| && j % WORD32 < |nodes| && k % WORD32 < |nodes|
    ensures Inside(nodes, RouteInsert(table, nodes[i % WORD32], nodes[j % WORD32], nodes[k % WORD32]))
  {
    NoWrap(i);
    NoWrap(j);
    NoWrap(k);
    if |nodes| > WORD32 {
      InsertWithin(nodes[..WORD32], table, i % WORD32, j % WORD32, k % WORD32);
    }
  }

  lemma InsertWithin(nodes: seq<NodeId>, table: Table, i: nat, j: nat, k: nat)
    requires i < |nodes| && j < |nodes| && k < |nodes| && Within(nodes, table)
    ensures Within(nodes, RouteInsert(table, nodes[i], nodes[j], nodes[k]))
  {
    hide RouteInsert, Lookup;
    forall a, b ensures Lookup(RouteInsert(table, nodes[i], nodes[j], nodes[k]), a, b)
                     == if a == nodes[i] && b == nodes[j] then Some(nodes[k]) else Lookup(table, a, b)
    {
      InsertLookup(table, nodes[i], nodes[j], nodes[k], a, b);
    }
  }

  /** The rows before the `count`-th are done, if all nodes have an index. */
  ghost predicate Built(nodes: seq<NodeId>, table: Table, next: (nat, nat) -> nat, count: int) {
    && Inside(nodes, table) && 0 <= count <= |nodes|
    && (|nodes| <= WORD32 ==> RowsDone(nodes, table, next, count) && Within(nodes, table))
  }

  /** So are the first `count` entries of the `i`-th row, and its own. */
  ghost predicate Started(nodes: seq<NodeId>, table: Table, next: (nat, nat) -> nat, i: nat, count: int) {
    && i < |nodes| && 0 <= count <= |nodes| && Built(nodes, table, next, i)
    && (|nodes| <= WORD32 ==> Entry(nodes, table, next, i, i) && RowPrefix(nodes, table, next, i, count))
  }

  lemma StartRow(nodes: seq<NodeId>, table: Table, next: (nat, nat) -> nat, i: nat)
    requires Distinct(nodes) && i < |nodes| && next(i, i) == i && Built(nodes, table, next, i)
    ensures i % WORD32 < |nodes|
    ensures var src := nodes[i % WORD32]; Started(nodes, RouteInsert(table, src, src, src), next, i, 0)
  {
    hide RowsDone, Entry, RowPrefix, Within, RouteInsert, Lookup, Distinct, Inside;
    NoWrap(i);
    InsertInside(nodes, table, i, i, i);
    if |nodes| <= WORD32 {
      OneMoreEntry(nodes, table, next, i, i);
      NoTargets(nodes, RouteInsert(table, nodes[i], nodes[i], nodes[i]), next, i);
    }
  }

  lemma OneMore(nodes: seq<NodeId>, table: Table, next: (nat, nat) -> nat, i: nat, j: nat)
    requires Distinct(nodes) && j < |nodes| && next(i, j) < |nodes| && Started(nodes, table, next, i, j)
    ensures i % WORD32 < |nodes| && j % WORD32 < |nodes| && next(i, j) % WORD32 < |nodes|
    ensures var table' := RouteInsert(table, nodes[i % WORD32], nodes[j % WORD32], nodes[next(i, j) % WORD32]);
            Started(nodes, table', next, i, j + 1)
  {
    hide RowsDone, Entry, RowPrefix, Within, RouteInsert, Lookup, Distinct, Inside;
    NoWrap(i);
    NoWrap(j);
    NoWrap(next(i, j));
    InsertInside(nodes, table, i, j, next(i, j));
    if |nodes| <= WORD32 {
      OneMoreTarget(nodes, table, next, i, j);
    }
  }

  /** A target that looks like the node itself is skipped. */
  lemma Skipped(nodes: seq<NodeId>, table: Table, next: (nat, nat) -> nat, i: nat, j: nat)
    requires Distinct(nodes) && j < |nodes| && Started(nodes, table, next, i, j)
    requires i % WORD32 < |nodes| && j % WORD32 < |nodes| && nodes[i % WORD32] == nodes[j % WORD32]
    ensures Started(nodes, table, next, i, j + 1)
  {
    hide RowsDone, Entry, RowPrefix, Within, Inside;
    NoWrap(i);
    NoWrap(j);
    if |nodes| <= WORD32 {
      OwnEntry(nodes, table, next, i);
    }
  }

  lemma NextRow(dy: nat, cx: nat, cy: nat)
    requires dy < cy
    ensures dy * cx >= 0 && (dy + 1) * cx == cx + dy * cx && (dy + 1) * cx <= cx * cy
  {
    MulMonotone(0, dy, cx);
    MulMonotone(dy + 1, cy, cx);
  }

  /** The next hop: along X, or along Y if the column is right. */
  method HopTo(x: Word32, y: Word32, dx: Word32, dy: Word32, cx: Word32, cy: Word32, both: bool) returns (hop: nat)
    requires x < cx && y < cy && dx < cx && dy < cy && (x != dx || y != dy)
    requires y * cx >= 0 && dy * cx >= 0 && x + y * cx < cx * cy && dx + dy * cx < cx * cy
    ensures hop == MeshHop(x + y * cx, dx + dy * cx, cx, cy, both) && hop < cx * cy
  {
    hide Hop32, AxisStep;
    Coordinates(x, y, cx, cy);
    Coordinates(dx, dy, cx, cy);
    if dx != x {
      var nx := AxisHop(x, dx, cx, both);
      Coordinates(nx, y, cx, cy);
      hop := nx + y * cx;
    } else {
      var ny := AxisHop(y, dy, cy, both);
      Coordinates(x, ny, cx, cy);
      hop := x + ny * cx;
    }
  }

  /** One entry of the table; none for the node itself, which has its own. Node indices wrap around 32 bits. */
  method MeshEntry(nodes: seq<NodeId>, table: Table, x: Word32, y: Word32, dx: Word32, dy: Word32, cx: Word32,
                   cy: Word32,
                   both: bool)
    returns (out: Table)
    requires Distinct(nodes) && |nodes| == cx * cy && x < cx && y < cy && dx < cx && dy < cy
    requires y * cx >= 0 && dy * cx >= 0 && x + y * cx < cx * cy && dx + dy * cx < cx * cy
    requires Started(nodes, table, MeshNext(cx, cy, both), x + y * cx, dx + dy * cx)
    ensures Started(nodes, out, MeshNext(cx, cy, both), x + y * cx, dx + dy * cx + 1)
  {
    hide Started, RouteInsert, MeshHop, Distinct;
    ghost var next, i, j := MeshNext(cx, cy, both), x + y * cx, dx + dy * cx;
    NoWrap(i);
    NoWrap(j);
    var src, dst := nodes[(x + y * cx) % WORD32], nodes[(dx + dy * cx) % WORD32];
    if dst == src {
      Skipped(nodes, table, next, i, j);
      return table;
    }
    assert x != dx || y != dy;
    var hop := HopTo(x, y, dx, dy, cx, cy, both);
    OneMore(nodes, table, next, i, j);
    out := RouteInsert(table, src, dst, nodes[hop % WORD32]);
  }

  /** The entries of one node for the targets with the same Y. */
  method MeshLine(nodes: seq<NodeId>, table: Table, x: Word32, y: Word32, dy: Word32, cx: Word32, cy: Word32,
                  both: bool)
    returns (out: Table)
    requires Distinct(nodes) && |nodes| == cx * cy && x < cx && y < cy && dy < cy
    requires y * cx >= 0 && dy * cx >= 0 && x + y * cx < cx * cy
    requires Started(nodes, table, MeshNext(cx, cy, both), x + y * cx, dy * cx)
    ensures Started(nodes, out, MeshNext(cx, cy, both), x + y * cx, cx + dy * cx)
  {
    hide Started, MeshHop, Distinct;
    out := table;
    for dx := 0 to cx
      invariant Started(nodes, out, MeshNext(cx, cy, both), x + y * cx, dx + dy * cx)
    {
      Coordinates(dx, dy, cx, cy);
      out := MeshEntry(nodes, out, x, y, dx, dy, cx, cy, both);
    }
  }

  /** The entries of one node, target by target. */
  method MeshRow(nodes: seq<NodeId>, table: Table, x: Word32, y: Word32, cx: Word32, cy: Word32, both: bool)
    returns (out: Table)
    requires Distinct(nodes) && |nodes| == cx * cy && x < cx && y < cy && y * cx >= 0 && x + y * cx < cx * cy
    requires Built(nodes, table, MeshNext(cx, cy, both), x + y * cx)
    ensures Built(nodes, out, MeshNext(cx, cy, both), x + y * cx + 1)
  {
    hide Built, Started, MeshHop, Distinct;
    out := OwnEntryFirst(nodes, table, x, y, cx, cy, both);
    for dy := 0 to cy
      invariant dy * cx >= 0 && Started(nodes, out, MeshNext(cx, cy, both), x + y * cx, dy * cx)
    {
      NextRow(dy, cx, cy);
      out := MeshLine(nodes, out, x, y, dy, cx, cy, both);
    }
    LastTarget(nodes, out, MeshNext(cx, cy, both), x + y * cx, cx, cy);
  }

  /** The entry of a node for itself. */
  method OwnEntryFirst(nodes: seq<NodeId>, table: Table, x: Word32, y: Word32, cx: Word32, cy: Word32, both: bool)
    returns (out: Table)
    requires Distinct(nodes) && |nodes| == cx * cy && x < cx && y < cy && y * cx >= 0 && x + y * cx < cx * cy
    requires Built(nodes, table, MeshNext(cx, cy, both), x + y * cx)
    ensures Started(nodes, out, MeshNext(cx, cy, both), x + y * cx, 0)
  {
    hide Built, Started, RouteInsert, MeshHop, Distinct;
    ghost var next, i := MeshNext(cx, cy, both), x + y * cx;
    NoWrap(i);
    var src := nodes[(x + y * cx) % WORD32];
    StandsStill(i, cx, cy, both);
    StartRow(nodes, table, next, i);
    out := RouteInsert(table, src, src, src);
  }

  lemma LastTarget(nodes: seq<NodeId>, table: Table, next: (nat, nat) -> nat, i: nat, cx: nat, cy: nat)
    requires |nodes| == cx * cy && Started(nodes, table, next, i, cy * cx)
    ensures Built(nodes, table, next, i + 1)
  {
    hide Started, Built;
    assert cy * cx == cx * cy;
    EndRow(nodes, table, next, i);
  }

  lemma EndRow(nodes: seq<NodeId>, table: Table, next: (nat, nat) -> nat, i: nat)
    requires Started(nodes, table, next, i, |nodes|)
    ensures Built(nodes, table, next, i + 1)
  {
    hide RowsDone, RowPrefix, Within, Inside;
    if |nodes| <= WORD32 {
      PrefixIsRow(nodes, table, next, i);
    }
  }

  /** The entries of the nodes with the same Y. */
  method MeshBand(nodes: seq<NodeId>, table: Table, y: Word32, cx: Word32, cy: Word32, both: bool) returns (out: Table)
    requires Distinct(nodes) && |nodes| == cx * cy && y < cy && y * cx >= 0
    requires Built(nodes, table, MeshNext(cx, cy, both), y * cx)
    ensures Built(nodes, out, MeshNext(cx, cy, both), cx + y * cx)
  {
    hide Built, Distinct, MeshHop;
    out := table;
    for x := 0 to cx
      invariant Built(nodes, out, MeshNext(cx, cy, both), x + y * cx)
    {
      Coordinates(x, y, cx, cy);
      out := MeshRow(nodes, out, x, y, cx, cy, both);
    }
  }

  method MeshRows(nodes: seq<NodeId>, cx: Word32, cy: Word32, both: bool) returns (out: Table)
    requires Distinct(nodes) && |nodes| == cx * cy
    ensures Built(nodes, out, MeshNext(cx, cy, both), |nodes|)
  {
    hide Built, Distinct, MeshHop;
    out := map[];
    NothingBuilt(nodes, MeshNext(cx, cy, both));
    for y := 0 to cy
      invariant y * cx >= 0 && Built(nodes, out, MeshNext(cx, cy, both), y * cx)
    {
      NextRow(y, cx, cy);
      out := MeshBand(nodes, out, y, cx, cy, both);
    }
  }

  lemma NothingBuilt(nodes: seq<NodeId>, next: (nat, nat) -> nat)
    ensures Built(nodes, map[], next, 0)
  {
    EmptyTable(nodes, next);
  }

  /** Every route has the length of the two axis distances together. */
  ghost predicate AllAxisRoutes(nodes: seq<NodeId>, table: Table, cx: nat, cy: nat, both: bool) {
    forall i: nat, j: nat :: i < |nodes| && j < |nodes| ==>
                               ReachesIn(Elements(nodes), table, nodes[i], nodes[j], MeshDistance(i, j, cx, cy, both))
  }

  /**
   The hop counts are the sums of the shorter ways round, or of the ways forward if the axes are not bidirectional,
   exactly as long as no index sum wraps around 32 bits; then the checker accepts the table, whose routes go along X
   before Y.
   */
  method GenrouteMesh2dXY(nodes: seq<NodeId>, cx: Word32, cy: Word32, both: bool) returns (r: Result<Table, GenError>)
    ensures r.Success? <==> cx > 0 && cy > 0 && |nodes| == cx * cy && Distinct(nodes)
    ensures r.Failure? ==>
              r.error == if cx == 0 || cy == 0 then EmptyDimension
              else if |nodes| != cx * cy then RouteRings.SizeMismatch else DuplicateNodes
    ensures r.Success? ==> (AllAxisRoutes(nodes, r.value, cx, cy, both) <==> Unwrapped(cx, cy, both))
    ensures r.Success? && Unwrapped(cx, cy, both) ==>
              && AllReachable(Elements(nodes), r.value) && Within(nodes, r.value)
              && Realizes(nodes, r.value, MeshNext(cx, cy, both))
  {
    hide Within, AllReachable, Realizes, Distinct, MeshHop, AllAxisRoutes, Built;
    if cx == 0 || cy == 0 {
      return Failure(EmptyDimension);
    }
    if |nodes| != cx * cy {
      return Failure(RouteRings.SizeMismatch);
    }
    ElementsCardinality(nodes);
    if |Elements(nodes)| != |nodes| {
      return Failure(DuplicateNodes);
    }
    var out := MeshRows(nodes, cx, cy, both);
    if Unwrapped(cx, cy, both) {
      MeshRoutes(nodes, out, cx, cy, both);
    } else {
      SomeRouteWrong(nodes, out, cx, cy, both);
    }
    return Success(out);
  }

  lemma MeshRoutes(nodes: seq<NodeId>, table: Table, cx: nat, cy: nat, both: bool)
    requires Distinct(nodes) && |nodes| == cx * cy && Built(nodes, table, MeshNext(cx, cy, both), |nodes|)
    requires Unwrapped(cx, cy, both)
    ensures AllReachable(Elements(nodes), table) && Within(nodes, table)
    ensures Realizes(nodes, table, MeshNext(cx, cy, both)) && AllAxisRoutes(nodes, table, cx, cy, both)
  {
    hide RowsDone, AllReachable, Descends, Realizes, Distinct, MeshHop, MeshDistance;
    AllRows(nodes, table, MeshNext(cx, cy, both));
    MeshDescends(cx, cy, both);
    Accepted(nodes, table, MeshNext(cx, cy, both), MeshDist(cx, cy, both));
    forall i: nat, j: nat | i < |nodes| && j < |nodes|
      ensures ReachesIn(Elements(nodes), table, nodes[i], nodes[j], MeshDistance(i, j, cx, cy, both))
    {
      HopCount(nodes, table, MeshNext(cx, cy, both), MeshDist(cx, cy, both), i, j);
    }
  }

  /** With wrapped sums the last node has no entries, or one of its neighbours along an axis is not one hop away. */
  lemma SomeRouteWrong(nodes: seq<NodeId>, table: Table, cx: Word32, cy: Word32, both: bool)
    requires Distinct(nodes) && cx > 0 && cy > 0 && |nodes| == cx * cy
    requires Built(nodes, table, MeshNext(cx, cy, both), |nodes|) && !Unwrapped(cx, cy, both)
    ensures !AllAxisRoutes(nodes, table, cx, cy, both)
  {
    hide RowsDone, Within, AllReachable, Realizes, Distinct, MeshHop, MeshDistance, AllAxisRoutes;
    if |nodes| > WORD32 {
      LeftOut(nodes, table, WORD32);
      Unreached(nodes, table, cx, cy, both);
    } else {
      AllRows(nodes, table, MeshNext(cx, cy, both));
      if cx > WORD32 / 2 {
        WrongColumn(cx, cy);
        WrongHop(nodes, table, cx - 1, cx - 2, cx, cy);
      } else {
        WrongRow(cx, cy);
        WrongHop(nodes, table, (cy - 1) * cx, (cy - 2) * cx, cx, cy);
      }
    }
  }

  lemma Unreached(nodes: seq<NodeId>, table: Table, cx: nat, cy: nat, both: bool)
    requires !AllReachable(Elements(nodes), table)
    ensures !AllAxisRoutes(nodes, table, cx, cy, both)
  {
    hide MeshDistance;
    if AllAxisRoutes(nodes, table, cx, cy, both) {
      forall src, dst | src in Elements(nodes) && dst in Elements(nodes)
        ensures Reachable(Elements(nodes), table, src, dst) {
        var i: nat :| i < |nodes| && nodes[i] == src;
        var j: nat :| j < |nodes| && nodes[j] == dst;
        assert ReachesIn(Elements(nodes), table, nodes[i], nodes[j], MeshDistance(i, j, cx, cy, both));
      }
    }
  }

  lemma WrongHop(nodes: seq<NodeId>, table: Table, i: nat, j: nat, cx: nat, cy: nat)
    requires Distinct(nodes) && |nodes| == cx * cy && Realizes(nodes, table, MeshNext(cx, cy, true))
    requires i < |nodes| && j < |nodes| && MeshDistance(i, j, cx, cy, true) == 1 && MeshHop(i, j, cx, cy, true) != j
    ensures !AllAxisRoutes(nodes, table, cx, cy, true)
  {
    hide MeshDistance, MeshHop;
    assert Row(nodes, table, MeshNext(cx, cy, true), i);
    assert Entry(nodes, table, MeshNext(cx, cy, true), i, j);
    assert !ReachesIn(Elements(nodes), table, nodes[i], nodes[j], 1);
  }

  /** From the last column the column before is one step away, but the hop does not go there. */
  lemma WrongColumn(cx: nat, cy: nat)
    requires WORD32 / 2 < cx < WORD32 && cy > 0
    ensures cx - 1 < cx * cy && MeshDistance(cx - 1, cx - 2, cx, cy, true) == 1
    ensures MeshHop(cx - 1, cx - 2, cx, cy, true) != cx - 2
  {
    hide Hop32;
    MulMonotone(1, cy, cx);
    Coordinates(cx - 1, 0, cx, cy);
    Coordinates(cx - 2, 0, cx, cy);
    WrongStep(cx);
  }

  lemma WrongRow(cx: nat, cy: nat)
    requires WORD32 / 2 < cy < WORD32 && cx > 0
    ensures 0 <= (cy - 2) * cx < (cy - 1) * cx < cx * cy
    ensures MeshDistance((cy - 1) * cx, (cy - 2) * cx, cx, cy, true) == 1
    ensures MeshHop((cy - 1) * cx, (cy - 2) * cx, cx, cy, true) != (cy - 2) * cx
  {
    hide Hop32;
    Coordinates(0, cy - 1, cx, cy);
    Coordinates(0, cy - 2, cx, cy);
    MulStep(cy - 2, cy - 1, cx);
    WrongStep(cy);
    var ny := Hop32(cy - 1, cy - 2, cy, true);
    if ny < cy - 2 {
      MulStep(ny, cy - 2, cx);
    } else {
      MulStep(cy - 2, ny, cx);
    }
  }
}
