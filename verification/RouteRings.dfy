/** The ring generators: their tables, and the routes these induce. */
module RouteRings {
  import opened Arith
  import opened Wrappers
  import opened RouteTable

  datatype GenError = DuplicateNodes | NoNodes | EmptyDimension | SizeMismatch

  // ----- Tables given by indices -----

  lemma InsertLookup(table: Table, src: NodeId, dst: NodeId, next: NodeId, a: NodeId, b: NodeId)
    ensures Lookup(RouteInsert(table, src, dst, next), a, b) ==
            if a == src && b == dst then Some(next) else Lookup(table, a, b)
  {
  }

  /** The table has entries between nodes of the list only. */
  ghost predicate Within(nodes: seq<NodeId>, table: Table) {
    forall a, b :: Lookup(table, a, b).Some? ==> a in nodes && b in nodes && Lookup(table, a, b).value in nodes
  }

  /** At the `i`-th node the table says `next(i, j)` for the `j`-th node. */
  ghost predicate Row(nodes: seq<NodeId>, table: Table, next: (nat, nat) -> nat, i: nat)
    requires i < |nodes|
  {
    forall j: nat :: j < |nodes| ==> Entry(nodes, table, next, i, j)
  }

  ghost predicate Entry(nodes: seq<NodeId>, table: Table, next: (nat, nat) -> nat, i: nat, j: nat)
    requires i < |nodes| && j < |nodes|
  {
    next(i, j) < |nodes| && Lookup(table, nodes[i], nodes[j]) == Some(nodes[next(i, j)])
  }

  ghost predicate Realizes(nodes: seq<NodeId>, table: Table, next: (nat, nat) -> nat) {
    forall i: nat :: i < |nodes| ==> Row(nodes, table, next, i)
  }

  /** Every hop brings the target one step closer, in the sense of `dist`. */
  ghost predicate Descends(n: nat, next: (nat, nat) -> nat, dist: (nat, nat) -> nat) {
    forall i: nat, j: nat ::
      i < n && j < n ==>
        if i == j then dist(i, j) == 0 else next(i, j) < n && dist(i, j) == dist(next(i, j), j) + 1
  }

  /** Then following the table takes exactly `dist` hops. */
  lemma {:induction false} HopCount(nodes: seq<NodeId>, table: Table, next: (nat, nat) -> nat, dist: (nat, nat) -> nat,
                                    i: nat, j: nat)
    requires Distinct(nodes) && Realizes(nodes, table, next) && Descends(|nodes|, next, dist) && i < |nodes|
             && j < |nodes|
    ensures ReachesIn(Elements(nodes), table, nodes[i], nodes[j], dist(i, j))
    decreases dist(i, j)
  {
    if i != j {
      assert Row(nodes, table, next, i);
      assert Entry(nodes, table, next, i, j);
      HopCount(nodes, table, next, dist, next(i, j), j);
      assert nodes[next(i, j)] in nodes;
      assert nodes[i] != nodes[j];
    }
  }

  /** And the table is one that the checker accepts. */
  lemma Accepted(nodes: seq<NodeId>, table: Table, next: (nat, nat) -> nat, dist: (nat, nat) -> nat)
    requires Distinct(nodes) && Realizes(nodes, table, next) && Descends(|nodes|, next, dist)
    ensures AllReachable(Elements(nodes), table)
  {
    forall src, dst | src in Elements(nodes) && dst in Elements(nodes)
      ensures Reachable(Elements(nodes), table, src, dst) {
      var i: nat :| i < |nodes| && nodes[i] == src;
      var j: nat :| j < |nodes| && nodes[j] == dst;
      HopCount(nodes, table, next, dist, i, j);
    }
  }

  // ----- Rings -----

  /** The index `k` places further on. */
  function At(i: nat, k: nat, n: nat): nat {
    if i + k < n then i + k else i + k - n
  }

  /** The same on the whole way round. */
  function Turn(i: nat, k: nat, n: nat): nat {
    if k == n then i else At(i, k, n)
  }

  /** How many places `j` is further on than `i`. */
  function Gap(i: nat, j: nat, n: nat): nat
    requires i < n && j < n
  {
    if i <= j then j - i else j + n - i
  }

  lemma AtGap(i: nat, j: nat, n: nat)
    requires i < n && j < n
    ensures Gap(i, j, n) < n && At(i, Gap(i, j, n), n) == j
  {
  }

  lemma AtModulo(i: nat, k: nat, n: nat)
    requires i < n && k <= n
    ensures (i + k) % n == Turn(i, k, n)
    ensures At(i, k, n) < n
  {
    DivUnique(i + k, n, if i + k < n then 0 else 1);
  }

  lemma ModuloOnce(r: nat, n: nat)
    requires r < n
    ensures (r + n) % n == r
  {
  }

  function SingleHop(i: nat, j: nat, n: nat): nat {
    if i == j || i >= n || j >= n then i else At(i, 1, n)
  }

  function SingleNext(n: nat): (nat, nat) -> nat {
    (i: nat, j: nat) => SingleHop(i, j, n)
  }

  function SingleDist(n: nat): (nat, nat) -> nat {
    (i: nat, j: nat) => if i < n && j < n then Gap(i, j, n) else 0
  }

  /** The index before `i`, as the generator computes it: the sum wraps around 32 bits. */
  function Back(i: nat, n: nat): nat
    requires n > 0
  {
    ((i + n - 1) % WORD32) % n
  }

  /** Up to half of the 32-bit range that is the index before, on larger rings it is not. */
  lemma BackIs(i: nat, n: nat)
    requires i < n < WORD32
    ensures Back(i, n) < n && (n <= WORD32 / 2 ==> Back(i, n) == At(i, n - 1, n))
    ensures i == n - 1 && n > WORD32 / 2 ==> Back(i, n) != n - 2
  {
    if i + n - 1 < WORD32 {
      DivUnique(i + n - 1, WORD32, 0);
      DivUnique(i + n - 1, n, if i == 0 then 0 else 1);
    } else {
      BackWraps(i, n);
    }
  }

  lemma BackWraps(i: nat, n: nat)
    requires i < n < WORD32 <= i + n - 1
    ensures Back(i, n) == i + n - 1 - WORD32
  {
    DivUnique(i + n - 1, WORD32, 1);
    DivUnique(i + n - 1 - WORD32, n, 0);
  }

  function DoubleHop(i: nat, j: nat, n: nat): nat {
    if i == j || i >= n || j >= n then i
    else if Gap(i, j, n) <= n / 2 then At(i, 1, n) else Back(i, n)
  }

  /** Forward for up to half of the ring, backward for the rest. */
  function DoubleNext(n: nat): (nat, nat) -> nat {
    (i: nat, j: nat) => DoubleHop(i, j, n)
  }

  /** The length of the shorter way round. */
  function RingDistance(i: nat, j: nat, n: nat): nat
    requires i < n && j < n
  {
    if Gap(i, j, n) <= n - Gap(i, j, n) then Gap(i, j, n) else n - Gap(i, j, n)
  }

  function DoubleDist(n: nat): (nat, nat) -> nat {
    (i: nat, j: nat) => if i < n && j < n then RingDistance(i, j, n) else 0
  }

  lemma SingleDescends(n: nat)
    ensures Descends(n, SingleNext(n), SingleDist(n))
  {
  }

  lemma DoubleDescends(n: nat)
    requires n <= WORD32 / 2
    ensures Descends(n, DoubleNext(n), DoubleDist(n))
  {
    hide Back;
    forall i: nat, j: nat | i < n && j < n
      ensures if i == j then DoubleDist(n)(i, j) == 0
              else DoubleNext(n)(i, j) < n && DoubleDist(n)(i, j) == DoubleDist(n)(DoubleNext(n)(i, j), j) + 1
    {
      BackIs(i, n);
    }
  }

  /** Where a packet from `i` to `j` is after `k` hops, if it keeps going the shorter way round. */
  function OneWay(i: nat, j: nat, k: nat, n: nat): nat
    requires i < n && j < n && k <= n
  {
    if k == 0 then i else if Gap(i, j, n) <= n / 2 then At(i, k, n) else At(i, n - k, n)
  }

  /** A route of the double ring never turns back: it goes the shorter way round, node by node, until it arrives. */
  lemma {:induction false} KeepsDirection(nodes: seq<NodeId>, table: Table, i: nat, j: nat, k: nat)
    requires Distinct(nodes) && |nodes| <= WORD32 / 2 && Realizes(nodes, table, DoubleNext(|nodes|))
    requires i < |nodes| && j < |nodes| && k <= RingDistance(i, j, |nodes|)
    ensures OneWay(i, j, k, |nodes|) < |nodes|
    ensures Walk(table, nodes[i], nodes[j], k) == nodes[OneWay(i, j, k, |nodes|)]
    decreases k
  {
    hide Back, Distinct;
    if k > 0 {
      var n := |nodes|;
      KeepsDirection(nodes, table, i, j, k - 1);
      var p := OneWay(i, j, k - 1, n);
      BackIs(p, n);
      OneMoreStep(i, j, k, n);
      assert Row(nodes, table, DoubleNext(n), p);
      assert Entry(nodes, table, DoubleNext(n), p, j);
    }
  }

  lemma OneMoreStep(i: nat, j: nat, k: nat, n: nat)
    requires i < n && j < n && 1 <= k <= RingDistance(i, j, n)
    ensures var p := OneWay(i, j, k - 1, n);
            && p < n && p != j && OneWay(i, j, k, n) < n
            && (if Gap(p, j, n) <= n / 2 then At(p, 1, n) else At(p, n - 1, n)) == OneWay(i, j, k, n)
  {
  }

  ghost predicate Neighbours(i: nat, j: nat, n: nat) {
    i < n && j < n && (j == At(i, 1, n) || i == At(j, 1, n))
  }

  /** Any walk round the ring needs at least that many steps, so the routes of the double ring are shortest. */
  lemma {:induction false} NoShorterWalk(walk: seq<nat>, n: nat)
    requires |walk| > 0 && (forall k :: 0 <= k < |walk| ==> walk[k] < n)
    requires forall k :: 0 <= k < |walk| - 1 ==> Neighbours(walk[k], walk[k + 1], n)
    ensures RingDistance(walk[0], walk[|walk| - 1], n) <= |walk| - 1
    decreases |walk|
  {
    if |walk| > 1 {
      var rest := walk[1..];
      forall k | 0 <= k < |rest| - 1 ensures Neighbours(rest[k], rest[k + 1], n) {
        assert Neighbours(walk[k + 1], walk[k + 2], n);
      }
      NoShorterWalk(rest, n);
      assert Neighbours(walk[0], walk[1], n);
    }
  }

  // ----- The generators -----

  /** The entries for the next `count` nodes after the `i`-th have been made. */
  ghost predicate RowStarted(nodes: seq<NodeId>, table: Table, next: (nat, nat) -> nat, i: nat, count: nat)
    requires i < |nodes| && count < |nodes|
  {
    forall k: nat :: 1 <= k <= count ==> Entry(nodes, table, next, i, At(i, k, |nodes|))
  }

  ghost predicate RowsDone(nodes: seq<NodeId>, table: Table, next: (nat, nat) -> nat, count: nat)
    requires count <= |nodes|
  {
    forall i: nat :: i < count ==> Row(nodes, table, next, i)
  }

  /** One more entry of a row leaves the rows before it alone. */
  lemma OneMoreEntry(nodes: seq<NodeId>, table: Table, next: (nat, nat) -> nat, i: nat, j: nat)
    requires Distinct(nodes) && i < |nodes| && j < |nodes| && next(i, j) < |nodes|
    requires RowsDone(nodes, table, next, i) && Within(nodes, table)
    ensures var table' := RouteInsert(table, nodes[i], nodes[j], nodes[next(i, j)]);
            && RowsDone(nodes, table', next, i) && Within(nodes, table') && Entry(nodes, table', next, i, j)
            && forall l: nat :: l < |nodes| && Entry(nodes, table, next, i, l) ==> Entry(nodes, table', next, i, l)
  {
    hide Lookup, RouteInsert;
    var table' := RouteInsert(table, nodes[i], nodes[j], nodes[next(i, j)]);
    forall a, b ensures Lookup(table', a, b) == if a == nodes[i]
                                                   && b == nodes[j] then Some(nodes[next(i, j)])
                                                else Lookup(table, a, b) {
      InsertLookup(table, nodes[i], nodes[j], nodes[next(i, j)], a, b);
    }
    forall h: nat | h < i ensures Row(nodes, table', next, h) {
      assert Row(nodes, table, next, h);
      forall l: nat | l < |nodes| ensures Entry(nodes, table', next, h, l) {
        assert Entry(nodes, table, next, h, l) && nodes[h] != nodes[i];
      }
    }
    forall l: nat | l < |nodes| && Entry(nodes, table, next, i, l) ensures Entry(nodes, table', next, i, l) {
      assert l != j ==> nodes[l] != nodes[j];
    }
  }

  lemma WholeRow(nodes: seq<NodeId>, table: Table, next: (nat, nat) -> nat, i: nat)
    requires i < |nodes| && RowsDone(nodes, table, next, i)
    requires RowStarted(nodes, table, next, i, |nodes| - 1) && Entry(nodes, table, next, i, i)
    ensures RowsDone(nodes, table, next, i + 1)
  {
    forall j: nat | j < |nodes| ensures Entry(nodes, table, next, i, j) {
      AtGap(i, j, |nodes|);
      if j != i {
        assert Entry(nodes, table, next, i, At(i, Gap(i, j, |nodes|), |nodes|));
      }
    }
    assert Row(nodes, table, next, i);
  }

  /** One more node after the `i`-th. */
  lemma OneMoreAhead(nodes: seq<NodeId>, table: Table, next: (nat, nat) -> nat, i: nat, k: nat)
    requires Distinct(nodes) && i < |nodes| && 1 <= k < |nodes| && next(i, At(i, k, |nodes|)) < |nodes|
    requires RowsDone(nodes, table, next, i) && Within(nodes, table) && RowStarted(nodes, table, next, i, k - 1)
    ensures At(i, k, |nodes|) < |nodes|
    ensures var table' := RouteInsert(table, nodes[i], nodes[At(i, k, |nodes|)], nodes[next(i, At(i, k, |nodes|))]);
            && RowsDone(nodes, table', next, i) && Within(nodes, table') && RowStarted(nodes, table', next, i, k)
            && (Entry(nodes, table, next, i, i) ==> Entry(nodes, table', next, i, i))
  {
    hide Entry, RouteInsert, Within, RowsDone;
    OneMoreEntry(nodes, table, next, i, At(i, k, |nodes|));
    var table' := RouteInsert(table, nodes[i], nodes[At(i, k, |nodes|)], nodes[next(i, At(i, k, |nodes|))]);
    forall l: nat | 1 <= l <= k ensures Entry(nodes, table', next, i, At(i, l, |nodes|)) {
      if l < k {
        assert Entry(nodes, table, next, i, At(i, l, |nodes|));
      }
    }
  }

  method Validate(nodes: seq<NodeId>) returns (error: Option<GenError>)
    ensures error.None? <==> Distinct(nodes) && nodes != []
    ensures error.Some? ==> error.value == if !Distinct(nodes) then DuplicateNodes else NoNodes
  {
    ElementsCardinality(nodes);
    if |Elements(nodes)| != |nodes| {
      return Some(DuplicateNodes);
    }
    return if nodes == [] then Some(NoNodes) else None;
  }

  /** The entries of one node of the single ring: the same next hop for every other node. */
  method SingleRingRow(nodes: seq<NodeId>, table: Table, i: nat) returns (out: Table)
    requires Distinct(nodes) && 1 < |nodes| < WORD32 && i < |nodes|
    requires RowsDone(nodes, table, SingleNext(|nodes|), i) && Within(nodes, table)
    ensures RowsDone(nodes, out, SingleNext(|nodes|), i + 1) && Within(nodes, out)
  {
    hide Row, RowsDone, RowStarted, Entry, Within, RouteInsert, Lookup, Distinct;
    var cnt, src := |nodes|, nodes[i];
    ghost var next := SingleNext(cnt);
    out := table;
    AtModulo(i, 1, cnt);
    var idx := (i + 1) % cnt;
    var hop := nodes[idx];
    NothingStarted(nodes, out, next, i);
    for j := 0 to cnt - 1
      invariant idx == Turn(i, j + 1, cnt)
      invariant RowsDone(nodes, out, next, i) && Within(nodes, out) && RowStarted(nodes, out, next, i, j)
    {
      OneMoreAhead(nodes, out, next, i, j + 1);
      out := RouteInsert(out, src, nodes[idx], hop);
      StepIndex(i, j + 1, cnt);
      idx := (idx + 1) % cnt;
    }
    KeepsStarted(nodes, out, next, i, cnt - 1);
    OneMoreEntry(nodes, out, next, i, i);
    out := RouteInsert(out, src, src, src);
    WholeRow(nodes, out, next, i);
  }

  /** All rows of the single ring over the nodes that a 32-bit count covers. */
  method SingleRingRows(nodes: seq<NodeId>) returns (out: Table)
    requires Distinct(nodes) && |nodes| < WORD32
    ensures Realizes(nodes, out, SingleNext(|nodes|)) && Within(nodes, out)
  {
    hide Row, RowsDone, RowStarted, Entry, Within, RouteInsert, Lookup, Realizes, Distinct;
    var cnt := |nodes|;
    out := map[];
    ghost var next := SingleNext(cnt);
    EmptyTable(nodes, next);
    if cnt == 1 {
      OneMoreEntry(nodes, out, next, 0, 0);
      out := RouteInsert(out, nodes[0], nodes[0], nodes[0]);
      OnlyRow(nodes, out, next);
    } else {
      for i := 0 to cnt
        invariant RowsDone(nodes, out, next, i) && Within(nodes, out)
      {
        out := SingleRingRow(nodes, out, i);
      }
    }
    AllRows(nodes, out, next);
  }

  /**
   Every route of the single ring goes forward, `Gap` hops. Lists too long to be counted in 32 bits get a table that
   does not reach every node.
   */
  method GenrouteSingleRing(nodes: seq<NodeId>) returns (r: Result<Table, GenError>)
    ensures r.Success? <==> Distinct(nodes) && nodes != []
    ensures r.Failure? ==> r.error == if !Distinct(nodes) then DuplicateNodes else NoNodes
    ensures r.Success? ==> (AllReachable(Elements(nodes), r.value) <==> |nodes| < WORD32)
    ensures r.Success? && |nodes| < WORD32 ==>
              && Within(nodes, r.value)
              && forall i, j :: 0 <= i < |nodes| && 0 <= j < |nodes| ==>
                                  ReachesIn(Elements(nodes), r.value, nodes[i], nodes[j], Gap(i, j, |nodes|))
  {
    hide Within, Lookup, AllReachable, Descends, Realizes, Distinct;
    var error := Validate(nodes);
    if error.Some? {
      return Failure(error.value);
    }
    var cnt := |nodes| % WORD32;
    Counted(nodes);
    var out := SingleRingRows(nodes[..cnt]);
    if |nodes| >= WORD32 {
      LeftOut(nodes, out, cnt);
      return Success(out);
    }
    assert nodes[..cnt] == nodes;
    SingleDescends(cnt);
    Accepted(nodes, out, SingleNext(cnt), SingleDist(cnt));
    forall i, j | 0 <= i < cnt && 0 <= j < cnt
      ensures ReachesIn(Elements(nodes), out, nodes[i], nodes[j], Gap(i, j, cnt)) {
      HopCount(nodes, out, SingleNext(cnt), SingleDist(cnt), i, j);
    }
    return Success(out);
  }

  lemma Counted(nodes: seq<NodeId>)
    requires Distinct(nodes)
    ensures var cnt := |nodes| % WORD32;
            && cnt <= |nodes| && cnt < WORD32 && Distinct(nodes[..cnt])
            && (|nodes| < WORD32 ==> cnt == |nodes|)
  {
    DivModFacts(|nodes|, WORD32);
    if |nodes| < WORD32 {
      DivUnique(|nodes|, WORD32, 0);
    }
  }

  lemma LastLeftOut(nodes: seq<NodeId>, cnt: nat)
    requires Distinct(nodes) && cnt < |nodes|
    ensures nodes[|nodes| - 1] !in nodes[..cnt]
  {
    forall i | 0 <= i < cnt ensures nodes[..cnt][i] != nodes[|nodes| - 1] {
      assert nodes[..cnt][i] == nodes[i];
    }
  }

  /** A table that has no entry for the last node does not lead away from it. */
  lemma LeftOut(nodes: seq<NodeId>, table: Table, cnt: nat)
    requires Distinct(nodes) && cnt < |nodes| && |nodes| > 1 && Within(nodes[..cnt], table)
    ensures !AllReachable(Elements(nodes), table)
  {
    var last, first := nodes[|nodes| - 1], nodes[0];
    LastLeftOut(nodes, cnt);
    assert Lookup(table, last, first).None?;
    assert last != first && !Reachable(Elements(nodes), table, last, first);
  }

  /** The first half of the entries of one node of the double ring: the nodes ahead. */
  method HalfAhead(nodes: seq<NodeId>, table: Table, i: nat) returns (out: Table, idx: nat)
    requires Distinct(nodes) && 1 < |nodes| < WORD32 && i < |nodes|
    requires RowsDone(nodes, table, DoubleNext(|nodes|), i) && Within(nodes, table)
    requires Entry(nodes, table, DoubleNext(|nodes|), i, i)
    ensures RowStarted(nodes, out, DoubleNext(|nodes|), i, |nodes| / 2) && RowsDone(nodes, out, DoubleNext(|nodes|), i)
    ensures Within(nodes, out) && Entry(nodes, out, DoubleNext(|nodes|), i, i)
    ensures idx == Turn(i, |nodes| / 2 + 1, |nodes|)
  {
    hide Row, RowsDone, RowStarted, Entry, Within, RouteInsert, Lookup, Distinct, DoubleNext;
    var cnt, src := |nodes|, nodes[i];
    ghost var next := DoubleNext(cnt);
    out := table;
    AtModulo(i, 1, cnt);
    idx := (i + 1) % cnt;
    var hop := nodes[idx];
    NothingStarted(nodes, out, next, i);
    for j := 0 to cnt / 2
      invariant idx == Turn(i, j + 1, cnt)
      invariant RowsDone(nodes, out, next, i) && Within(nodes, out)
      invariant RowStarted(nodes, out, next, i, j) && Entry(nodes, out, next, i, i)
    {
      Halves(i, j + 1, cnt);
      OneMoreAhead(nodes, out, next, i, j + 1);
      out := RouteInsert(out, src, nodes[idx], hop);
      StepIndex(i, j + 1, cnt);
      idx := (idx + 1) % cnt;
    }
  }

  /** The entries of one node of the double ring: half of the ring one way, the rest the other way. */
  method DoubleRingRow(nodes: seq<NodeId>, table: Table, i: nat) returns (out: Table)
    requires Distinct(nodes) && 1 < |nodes| < WORD32 && i < |nodes|
    requires RowsDone(nodes, table, DoubleNext(|nodes|), i) && Within(nodes, table)
    ensures RowsDone(nodes, out, DoubleNext(|nodes|), i + 1) && Within(nodes, out)
  {
    hide Row, RowsDone, RowStarted, Entry, Within, RouteInsert, Lookup, Distinct, DoubleNext;
    var cnt, src, idx := |nodes|, nodes[i], 0;
    ghost var next := DoubleNext(cnt);
    Homeward(i, cnt);
    OneMoreEntry(nodes, table, next, i, i);
    out := RouteInsert(table, src, src, src);
    out, idx := HalfAhead(nodes, out, i);
    BackIs(i, cnt);
    var hop := nodes[((i + cnt - 1) % WORD32) % cnt];
    ghost var k := cnt / 2 + 1;
    while idx != i
      invariant cnt / 2 < k <= cnt && idx == Turn(i, k, cnt)
      invariant RowsDone(nodes, out, next, i) && Within(nodes, out)
      invariant RowStarted(nodes, out, next, i, k - 1) && Entry(nodes, out, next, i, i)
      decreases cnt - k
    {
      Halves(i, k, cnt);
      OneMoreAhead(nodes, out, next, i, k);
      out := RouteInsert(out, src, nodes[idx], hop);
      StepIndex(i, k, cnt);
      idx, k := (idx + 1) % cnt, k + 1;
    }
    NotBack(i, k, cnt);
    WholeRow(nodes, out, next, i);
  }

  lemma Homeward(i: nat, n: nat)
    requires i < n
    ensures DoubleNext(n)(i, i) == i
  {
  }

  /** All rows of the double ring over the nodes that a 32-bit count covers. */
  method DoubleRingRows(nodes: seq<NodeId>) returns (out: Table)
    requires Distinct(nodes) && |nodes| < WORD32
    ensures Realizes(nodes, out, DoubleNext(|nodes|)) && Within(nodes, out)
  {
    hide Row, RowsDone, RowStarted, Entry, Within, RouteInsert, Lookup, Realizes, Distinct;
    var cnt := |nodes|;
    out := map[];
    ghost var next := DoubleNext(cnt);
    EmptyTable(nodes, next);
    if cnt == 1 {
      OneMoreEntry(nodes, out, next, 0, 0);
      out := RouteInsert(out, nodes[0], nodes[0], nodes[0]);
      OnlyRow(nodes, out, next);
    } else {
      for i := 0 to cnt
        invariant RowsDone(nodes, out, next, i) && Within(nodes, out)
      {
        out := DoubleRingRow(nodes, out, i);
      }
    }
    AllRows(nodes, out, next);
  }

  /** Every route has the length of the shorter way round. */
  ghost predicate AllShortest(nodes: seq<NodeId>, table: Table) {
    forall i, j :: 0 <= i < |nodes| && 0 <= j < |nodes| ==>
                     ReachesIn(Elements(nodes), table, nodes[i], nodes[j], RingDistance(i, j, |nodes|))
  }

  /**
   Every route of the double ring is a shortest one, as long as the index sums do not wrap around 32 bits; on larger
   rings some route is not.
   */
  method GenrouteDoubleRing(nodes: seq<NodeId>) returns (r: Result<Table, GenError>)
    ensures r.Success? <==> Distinct(nodes) && nodes != []
    ensures r.Failure? ==> r.error == if !Distinct(nodes) then DuplicateNodes else NoNodes
    ensures r.Success? ==> (AllShortest(nodes, r.value) <==> |nodes| <= WORD32 / 2)
    ensures r.Success? && |nodes| <= WORD32 / 2 ==>
              && AllReachable(Elements(nodes), r.value) && Within(nodes, r.value)
              && Realizes(nodes, r.value, DoubleNext(|nodes|))
  {
    hide Within, Lookup, AllReachable, Descends, Realizes, Distinct, DoubleNext;
    var error := Validate(nodes);
    if error.Some? {
      return Failure(error.value);
    }
    var cnt := |nodes| % WORD32;
    Counted(nodes);
    var out := DoubleRingRows(nodes[..cnt]);
    if |nodes| >= WORD32 {
      LeftOut(nodes, out, cnt);
      NotAllShortest(nodes, out);
      return Success(out);
    }
    assert nodes[..cnt] == nodes;
    if cnt > WORD32 / 2 {
      WrappedHop(nodes, out);
      return Success(out);
    }
    DoubleDescends(cnt);
    Accepted(nodes, out, DoubleNext(cnt), DoubleDist(cnt));
    forall i, j | 0 <= i < cnt && 0 <= j < cnt
      ensures ReachesIn(Elements(nodes), out, nodes[i], nodes[j], RingDistance(i, j, cnt)) {
      HopCount(nodes, out, DoubleNext(cnt), DoubleDist(cnt), i, j);
    }
    return Success(out);
  }

  lemma NotAllShortest(nodes: seq<NodeId>, table: Table)
    requires !AllReachable(Elements(nodes), table)
    ensures !AllShortest(nodes, table)
  {
    if AllShortest(nodes, table) {
      forall src, dst | src in Elements(nodes) && dst in Elements(nodes)
        ensures Reachable(Elements(nodes), table, src, dst) {
        var i :| 0 <= i < |nodes| && nodes[i] == src;
        var j :| 0 <= j < |nodes| && nodes[j] == dst;
        assert ReachesIn(Elements(nodes), table, nodes[i], nodes[j], RingDistance(i, j, |nodes|));
      }
    }
  }

  /** On a ring of more than 2^31 nodes the last node does not reach its neighbour in one hop. */
  lemma WrappedHop(nodes: seq<NodeId>, table: Table)
    requires Distinct(nodes) && WORD32 / 2 < |nodes| < WORD32 && Realizes(nodes, table, DoubleNext(|nodes|))
    ensures !AllShortest(nodes, table)
  {
    var n := |nodes|;
    BackIs(n - 1, n);
    hide Back;
    assert RingDistance(n - 1, n - 2, n) == 1 && DoubleNext(n)(n - 1, n - 2) == Back(n - 1, n);
    assert Row(nodes, table, DoubleNext(n), n - 1);
    assert Entry(nodes, table, DoubleNext(n), n - 1, n - 2);
    assert nodes[Back(n - 1, n)] != nodes[n - 2];
    assert !ReachesIn(Elements(nodes), table, nodes[n - 1], nodes[n - 2], 1);
  }

  lemma EmptyTable(nodes: seq<NodeId>, next: (nat, nat) -> nat)
    ensures RowsDone(nodes, map[], next, 0) && Within(nodes, map[])
  {
  }

  lemma OnlyRow(nodes: seq<NodeId>, table: Table, next: (nat, nat) -> nat)
    requires |nodes| == 1 && Entry(nodes, table, next, 0, 0)
    ensures RowsDone(nodes, table, next, 1)
  {
  }

  lemma NothingStarted(nodes: seq<NodeId>, table: Table, next: (nat, nat) -> nat, i: nat)
    requires i < |nodes|
    ensures RowStarted(nodes, table, next, i, 0)
  {
  }

  /** The last entry of the row is made for the node itself; it does not touch the others. */
  lemma KeepsStarted(nodes: seq<NodeId>, table: Table, next: (nat, nat) -> nat, i: nat, count: nat)
    requires Distinct(nodes) && i < |nodes| && count < |nodes| && next(i, i) < |nodes|
             && RowsDone(nodes, table, next, i) && Within(nodes, table)
    requires RowStarted(nodes, table, next, i, count)
    ensures RowStarted(nodes, RouteInsert(table, nodes[i], nodes[i], nodes[next(i, i)]), next, i, count)
  {
    OneMoreEntry(nodes, table, next, i, i);
  }

  lemma AllRows(nodes: seq<NodeId>, table: Table, next: (nat, nat) -> nat)
    requires RowsDone(nodes, table, next, |nodes|)
    ensures Realizes(nodes, table, next)
  {
  }

  lemma StepIndex(i: nat, k: nat, n: nat)
    requires i < n && 1 <= k < n
    ensures (At(i, k, n) + 1) % n == Turn(i, k + 1, n)
  {
    if At(i, k, n) + 1 == n {
      ModuloOnce(0, n);
    }
  }

  /** Which way the double ring goes to the node `k` places on. */
  lemma Halves(i: nat, k: nat, n: nat)
    requires i < n && 1 <= k < n
    ensures At(i, k, n) < n && At(i, k, n) != i
    ensures DoubleNext(n)(i, At(i, k, n)) == if k <= n / 2 then At(i, 1, n) else Back(i, n)
  {
  }

  lemma NotBack(i: nat, k: nat, n: nat)
    requires i < n && 1 <= k <= n && i == Turn(i, k, n)
    ensures k == n
  {
  }
}
