/**
 Route tables of the network-on-chip: what following a table means, the hop
 distance it induces, and the checker that decides whether a table is usable.
 */
module RouteTable {
  import opened Wrappers

  type NodeId = nat

  /** `table[src][dst]` is the next hop on the way from `src` to `dst`. */
  type Table = map<NodeId, map<NodeId, NodeId>>

  function Lookup(table: Table, cur: NodeId, dst: NodeId): Option<NodeId> {
    if cur in table && dst in table[cur] then Some(table[cur][dst]) else None
  }

  function RouteInsert(table: Table, src: NodeId, dst: NodeId, next: NodeId): Table {
    table[src := (if src in table then table[src] else map[])[dst := next]]
  }

  function Elements(s: seq<NodeId>): set<NodeId> {
    set x | x in s
  }

  ghost predicate Distinct<T>(s: seq<T>) {
    forall i, j :: 0 <= i < j < |s| ==> s[i] != s[j]
  }

  ghost predicate Increasing(q: seq<nat>) {
    forall i, j :: 0 <= i < j < |q| ==> q[i] < q[j]
  }

  // ----- Following a table -----

  /** Following `table` from `cur` first arrives at `dst` after exactly `hops` steps, all of them inside `nodes`. */
  ghost predicate ReachesIn(nodes: set<NodeId>, table: Table, cur: NodeId, dst: NodeId, hops: nat)
    decreases hops
  {
    if cur == dst then hops == 0
    else
      && hops > 0
      && Lookup(table, cur, dst).Some?
      && Lookup(table, cur, dst).value in nodes
      && ReachesIn(nodes, table, Lookup(table, cur, dst).value, dst, hops - 1)
  }

  ghost predicate Reachable(nodes: set<NodeId>, table: Table, cur: NodeId, dst: NodeId) {
    exists hops: nat :: ReachesIn(nodes, table, cur, dst, hops)
  }

  ghost predicate AllReachable(nodes: set<NodeId>, table: Table) {
    forall src, dst {:trigger Reachable(nodes, table, src, dst)} ::
      src in nodes && dst in nodes ==> Reachable(nodes, table, src, dst)
  }

  lemma {:induction false} HopsUnique(nodes: set<NodeId>, table: Table, cur: NodeId, dst: NodeId, j: nat, k: nat)
    requires ReachesIn(nodes, table, cur, dst, j)
    requires ReachesIn(nodes, table, cur, dst, k)
    ensures j == k
    decreases j
  {
    if cur != dst {
      HopsUnique(nodes, table, Lookup(table, cur, dst).value, dst, j - 1, k - 1);
    }
  }

  /** The hop count of the route from `cur` to `dst`. */
  ghost function Distance(nodes: set<NodeId>, table: Table, cur: NodeId, dst: NodeId): (hops: nat)
    requires Reachable(nodes, table, cur, dst)
    ensures ReachesIn(nodes, table, cur, dst, hops)
  {
    var hops: nat :| ReachesIn(nodes, table, cur, dst, hops);
    hops
  }

  /** One step along a route brings the destination exactly one hop closer. */
  lemma DistanceStep(nodes: set<NodeId>, table: Table, cur: NodeId, dst: NodeId)
    requires cur != dst && Reachable(nodes, table, cur, dst)
    ensures Lookup(table, cur, dst).Some? && Lookup(table, cur, dst).value in nodes
    ensures Reachable(nodes, table, Lookup(table, cur, dst).value, dst)
    ensures Distance(nodes, table, cur, dst) == Distance(nodes, table, Lookup(table, cur, dst).value, dst) + 1
  {
    var next := Lookup(table, cur, dst).value;
    var d := Distance(nodes, table, cur, dst);
    assert ReachesIn(nodes, table, next, dst, d - 1);
    HopsUnique(nodes, table, next, dst, d - 1, Distance(nodes, table, next, dst));
  }

  // ----- The checker -----

  /** Why a table is rejected; `Unreachable` is the checker's last resort. */
  datatype RouteError =
    | DuplicateNode
    | Loop(src: NodeId, dst: NodeId)
    | MissingSource(cur: NodeId, dst: NodeId)
    | MissingEntry(cur: NodeId, dst: NodeId)
    | NextHopNotInList(cur: NodeId)
    | Unreachable(src: NodeId, dst: NodeId)

  /** What is wrong when `error` is reported. */
  ghost predicate Explains(nodes: seq<NodeId>, table: Table, error: RouteError) {
    match error
    case DuplicateNode => !Distinct(nodes)
    case Loop(src, dst) => src in nodes && dst in nodes && Revisits(Elements(nodes), table, src, dst)
    case MissingSource(cur, dst) => cur in nodes && dst in nodes && cur != dst && cur !in table
    case MissingEntry(cur, dst) => cur in nodes && dst in nodes && cur != dst && cur in table && dst !in table[cur]
    case NextHopNotInList(cur) =>
      cur !in nodes && exists n, dst :: n in nodes && dst in nodes && Lookup(table, n, dst) == Some(cur)
    case Unreachable(_, _) => false
  }

  /** The node reached after `hops` steps towards `dst`, as far as entries exist. */
  ghost function Walk(table: Table, cur: NodeId, dst: NodeId, hops: nat): NodeId {
    if hops == 0 then cur
    else
      var prev := Walk(table, cur, dst, hops - 1);
      if Lookup(table, prev, dst).Some? then Lookup(table, prev, dst).value else prev
  }

  /** Step `i` of the walk exists, starts short of `dst` and stays inside `nodes`. */
  ghost predicate StepAt(nodes: set<NodeId>, table: Table, src: NodeId, dst: NodeId, i: nat) {
    var cur := Walk(table, src, dst, i);
    cur != dst && Lookup(table, cur, dst) == Some(Walk(table, src, dst, i + 1)) && Walk(table, src, dst, i + 1) in nodes
  }

  ghost predicate Walked(nodes: set<NodeId>, table: Table, src: NodeId, dst: NodeId, hops: nat) {
    forall i: nat :: i < hops ==> StepAt(nodes, table, src, dst, i)
  }

  /** The walk comes back to a node it has left, before it has reached `dst`. */
  ghost predicate Revisits(nodes: set<NodeId>, table: Table, src: NodeId, dst: NodeId) {
    exists i: nat, j: nat ::
      i < j && Walked(nodes, table, src, dst, j) && Walk(table, src, dst, i) == Walk(table, src, dst, j)
  }

  /** After a walked prefix, `dst` is reached from its start exactly when it is reached from its end. */
  lemma {:induction false} WalkIsPrefix(nodes: set<NodeId>, table: Table, src: NodeId, dst: NodeId, hops: nat)
    requires Walked(nodes, table, src, dst, hops)
    ensures forall k: nat :: ReachesIn(nodes, table, Walk(table, src, dst, hops), dst, k)
                             <==> ReachesIn(nodes, table, src, dst, hops + k)
    ensures forall k: nat :: ReachesIn(nodes, table, src, dst, k) ==> hops <= k
    decreases hops
  {
    if hops > 0 {
      WalkIsPrefix(nodes, table, src, dst, hops - 1);
      assert StepAt(nodes, table, src, dst, hops - 1);
      var prev, cur := Walk(table, src, dst, hops - 1), Walk(table, src, dst, hops);
      forall k: nat
        ensures ReachesIn(nodes, table, cur, dst, k) <==> ReachesIn(nodes, table, src, dst, hops + k)
      {
        assert ReachesIn(nodes, table, prev, dst, k + 1) <==> ReachesIn(nodes, table, cur, dst, k);
        assert ReachesIn(nodes, table, prev, dst, k + 1) <==> ReachesIn(nodes, table, src, dst, hops - 1 + (k + 1));
      }
      forall k: nat | ReachesIn(nodes, table, src, dst, k)
        ensures hops <= k
      {
        assert hops - 1 <= k;
        assert ReachesIn(nodes, table, prev, dst, k - (hops - 1)) <==>
               ReachesIn(nodes, table, src, dst, hops - 1 + (k - (hops - 1)));
      }
    }
  }

  /** A walk that comes back to a node it has left never reaches `dst`. */
  lemma LoopNeverReaches(nodes: set<NodeId>, table: Table, src: NodeId, dst: NodeId, i: nat, hops: nat)
    requires i < hops && Walked(nodes, table, src, dst, hops)
    requires Walk(table, src, dst, i) == Walk(table, src, dst, hops)
    ensures !Reachable(nodes, table, src, dst)
  {
    if Reachable(nodes, table, src, dst) {
      var k: nat :| ReachesIn(nodes, table, src, dst, k);
      WalkIsPrefix(nodes, table, src, dst, hops);
      WalkIsPrefix(nodes, table, src, dst, i);
      var cur := Walk(table, src, dst, i);
      assert ReachesIn(nodes, table, cur, dst, k - hops) <==> ReachesIn(nodes, table, src, dst, hops + (k - hops));
      assert ReachesIn(nodes, table, cur, dst, k - i) <==> ReachesIn(nodes, table, src, dst, i + (k - i));
      HopsUnique(nodes, table, cur, dst, k - i, k - hops);
      assert false;
    }
  }

  /** A walk that stops at a node other than `dst` without a next hop inside `nodes` never reaches `dst`. */
  lemma DeadEndNeverReaches(nodes: set<NodeId>, table: Table, src: NodeId, dst: NodeId, hops: nat)
    requires Walked(nodes, table, src, dst, hops)
    requires var cur := Walk(table, src, dst, hops);
             cur != dst && (Lookup(table, cur, dst).Some? ==> Lookup(table, cur, dst).value !in nodes)
    ensures !Reachable(nodes, table, src, dst)
  {
    if Reachable(nodes, table, src, dst) {
      var k: nat :| ReachesIn(nodes, table, src, dst, k);
      WalkIsPrefix(nodes, table, src, dst, hops);
      assert ReachesIn(nodes, table, Walk(table, src, dst, hops), dst, k - hops)
        <==> ReachesIn(nodes, table, src, dst, hops + (k - hops));
      assert false;
    }
  }

  lemma {:induction false} CardinalityOfSubset<T>(a: set<T>, b: set<T>)
    requires a <= b
    ensures |a| <= |b|
    ensures |a| == |b| ==> a == b
    decreases |a|
  {
    if a != {} {
      var x :| x in a;
      CardinalityOfSubset(a - {x}, b - {x});
      assert |b - {x}| == |b| - 1;
      assert a - {x} == b - {x} ==> a == (a - {x}) + {x} == (b - {x}) + {x} == b;
    } else if |b| == 0 {
      assert b == {};
    }
  }

  lemma {:induction false} ElementsCardinality(s: seq<NodeId>)
    ensures |Elements(s)| <= |s|
    ensures |Elements(s)| == |s| <==> Distinct(s)
  {
    if s != [] {
      var init, last := s[..|s| - 1], s[|s| - 1];
      ElementsCardinality(init);
      assert s == init + [last];
      if last in init {
        assert Elements(s) == Elements(init);
        var i :| 0 <= i < |init| && init[i] == last;
        assert s[i] == s[|s| - 1];
      } else {
        assert Elements(s) == Elements(init) + {last};
      }
    }
  }

  /** The nodes left behind by a walk of `hops` steps are pairwise different and make up `seen`. */
  ghost predicate LeftBehind(nodes: set<NodeId>, table: Table, src: NodeId, dst: NodeId, hops: nat, seen: set<NodeId>) {
    && Walked(nodes, table, src, dst, hops)
    && seen <= nodes && |seen| == hops
    && forall n :: n in seen ==> exists i: nat :: i < hops && Walk(table, src, dst, i) == n
  }

  /** A walk without repetition extended by one legal step; pigeonhole keeps it shorter than the node list. */
  lemma LeftBehindStep(nodes: set<NodeId>, table: Table, src: NodeId, dst: NodeId, hops: nat, seen: set<NodeId>)
    requires LeftBehind(nodes, table, src, dst, hops, seen)
    requires Walk(table, src, dst, hops) in nodes - seen && StepAt(nodes, table, src, dst, hops)
    ensures LeftBehind(nodes, table, src, dst, hops + 1, seen + {Walk(table, src, dst, hops)})
    ensures hops + 1 <= |nodes|
  {
    var cur := Walk(table, src, dst, hops);
    CardinalityOfSubset(seen + {cur}, nodes);
    forall n | n in seen + {cur}
      ensures exists i: nat :: i < hops + 1 && Walk(table, src, dst, i) == n
    {
      if n in seen {
        var i: nat :| i < hops && Walk(table, src, dst, i) == n;
        assert i < hops + 1;
      }
    }
  }

  /** Meeting a node again is a loop. */
  lemma SeenAgain(nodes: set<NodeId>, table: Table, src: NodeId, dst: NodeId, hops: nat, seen: set<NodeId>)
    requires LeftBehind(nodes, table, src, dst, hops, seen) && Walk(table, src, dst, hops) in seen
    ensures Revisits(nodes, table, src, dst) && !Reachable(nodes, table, src, dst)
  {
    var i: nat :| i < hops && Walk(table, src, dst, i) == Walk(table, src, dst, hops);
    LoopNeverReaches(nodes, table, src, dst, i, hops);
  }

  /** A walk that ends at `dst` is a route to it. */
  lemma WalkArrives(nodes: set<NodeId>, table: Table, src: NodeId, dst: NodeId, hops: nat)
    requires Walked(nodes, table, src, dst, hops) && Walk(table, src, dst, hops) == dst
    ensures ReachesIn(nodes, table, src, dst, hops)
  {
    WalkIsPrefix(nodes, table, src, dst, hops);
    assert ReachesIn(nodes, table, dst, dst, 0) <==> ReachesIn(nodes, table, src, dst, hops + 0);
  }

  /** One iteration of the checker's loops over `src` and `dst`: follow the route for at most `|nodes| + 1` hops. */
  method CheckRoute(nodes: seq<NodeId>, table: Table, src: NodeId, dst: NodeId) returns (error: Option<RouteError>)
    requires Distinct(nodes) && src in nodes && dst in nodes
    ensures error.None? <==> Reachable(Elements(nodes), table, src, dst)
    ensures error.Some? ==> Explains(nodes, table, error.value)
  {
    var nodeSet := Elements(nodes);
    var cur := src;
    var seen: set<NodeId> := {};
    var hop := 0;
    assert |nodeSet| == |nodes| by { ElementsCardinality(nodes); }
    while hop <= |nodes|
      invariant hop <= |nodes|
      invariant cur in nodeSet && cur == Walk(table, src, dst, hop)
      invariant LeftBehind(nodeSet, table, src, dst, hop, seen)
      decreases |nodes| - hop
    {
      if cur == dst {
        break;
      }
      if cur in seen {
        SeenAgain(nodeSet, table, src, dst, hop, seen);
        return Some(Loop(src, dst));
      }
      if cur !in table {
        DeadEndNeverReaches(nodeSet, table, src, dst, hop);
        return Some(MissingSource(cur, dst));
      }
      if dst !in table[cur] {
        DeadEndNeverReaches(nodeSet, table, src, dst, hop);
        return Some(MissingEntry(cur, dst));
      }
      assert Lookup(table, cur, dst) == Some(table[cur][dst]);
      if table[cur][dst] !in nodeSet {
        DeadEndNeverReaches(nodeSet, table, src, dst, hop);
        return Some(NextHopNotInList(table[cur][dst]));
      }
      LeftBehindStep(nodeSet, table, src, dst, hop, seen);
      seen := seen + {cur};
      cur := table[cur][dst];
      hop := hop + 1;
    }
    if cur != dst {
      // the checker would report `Unreachable` here; the loop is only ever left through its break
      assert false;
    }
    WalkArrives(nodeSet, table, src, dst, hop);
    return None;
  }

  ghost predicate AllReached(nodes: seq<NodeId>, table: Table, src: NodeId, upTo: nat)
    requires upTo <= |nodes|
  {
    forall k :: 0 <= k < upTo ==> Reachable(Elements(nodes), table, src, nodes[k])
  }

  /**
   Accepts a table exactly when the node list has no duplicates and following
   next hops inside the list leads from every node to every other. Whatever it
   reports is a true explanation, so `Unreachable` is never reported.
   */
  method RouteTableValid(nodes: seq<NodeId>, table: Table) returns (error: Option<RouteError>)
    ensures error.None? <==> Distinct(nodes) && AllReachable(Elements(nodes), table)
    ensures error.Some? ==> Explains(nodes, table, error.value)
  {
    hide Reachable;
    ElementsCardinality(nodes);
    if |Elements(nodes)| != |nodes| {
      return Some(DuplicateNode);
    }
    for i := 0 to |nodes|
      invariant forall k :: 0 <= k < i ==> AllReached(nodes, table, nodes[k], |nodes|)
    {
      for j := 0 to |nodes|
        invariant AllReached(nodes, table, nodes[i], j)
      {
        error := CheckRoute(nodes, table, nodes[i], nodes[j]);
        if error.Some? {
          return;
        }
      }
    }
    assert forall src, dst :: src in nodes && dst in nodes ==> Reachable(Elements(nodes), table, src, dst);
    return None;
  }
}
