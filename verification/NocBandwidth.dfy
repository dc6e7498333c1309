/** What a link may move in one tick: its byte budget, and how it is spent. */
module NocBandwidth {
  import opened Arith
  import opened Wrappers
  import opened NocState
  import opened NocInvariant
  import opened NocFlow

  predicate Moves(e: Edge, e': Edge, c: nat) {
    c < |e.input| && c < |e'.input| && e.input[c].Some? && e'.input[c].None?
  }

  function Size(e: Edge, c: nat): nat {
    if c < |e.input| && e.input[c].Some? then |e.input[c].value.data| else 0
  }

  /** The bytes that the channels from `lo` to `hi` have moved. */
  function MovedBytes(e: Edge, e': Edge, lo: nat, hi: nat): nat
    decreases hi - lo
  {
    if lo >= hi then 0 else (if Moves(e, e', lo) then Size(e, lo) else 0) + MovedBytes(e, e', lo + 1, hi)
  }

  function MovedCount(e: Edge, e': Edge, lo: nat, hi: nat): nat
    decreases hi - lo
  {
    if lo >= hi then 0 else (if Moves(e, e', lo) then 1 else 0) + MovedCount(e, e', lo + 1, hi)
  }

  /** Packets are not empty and fit a channel. */
  predicate Sized(e: Edge) {
    |e.input| == |e.output| && forall c :: 0 <= c < |e.input| && e.input[c].Some? ==>
                                             0 < |e.input[c].value.data| <= MAX_WIDTH
  }

  /** Only the channels from `lo` on matter for what they have moved. */
  lemma {:induction false} SameMoves(e: Edge, f: Edge, e': Edge, lo: nat, hi: nat)
    requires |f.input| == |e.input| && forall c :: lo <= c < |e.input| ==> f.input[c] == e.input[c]
    ensures MovedBytes(e, e', lo, hi) == MovedBytes(f, e', lo, hi)
            && MovedCount(e, e', lo, hi) == MovedCount(f, e', lo, hi)
    decreases hi - lo
  {
    if lo < hi {
      SameMoves(e, f, e', lo + 1, hi);
    }
  }

  lemma {:induction false} NoMoves(e: Edge, lo: nat, hi: nat)
    ensures MovedBytes(e, e, lo, hi) == 0 && MovedCount(e, e, lo, hi) == 0
    decreases hi - lo
  {
    if lo < hi {
      NoMoves(e, lo + 1, hi);
    }
  }

  predicate Ready(e: Edge, c: nat) {
    c < |e.input| && c < |e.output| && e.input[c].Some? && e.output[c].None?
  }

  /** Channel `c` is passed over: it has nothing that could move, or nothing that fits. */
  predicate Passed(linkWidth: nat, e: Edge, c: nat, total: nat) {
    !Ready(e, c) || (total > 0 && linkWidth < total + Size(e, c) < WORD32)
  }

  /** From channel `c` on, with `total` bytes moved: some packet that is moved takes the sum to 2^32 or beyond. */
  predicate Overflows(linkWidth: nat, e: Edge, c: nat, total: nat)
    decreases |e.input| - c
  {
    c < |e.input| && total < linkWidth &&
    if Passed(linkWidth, e, c, total) then Overflows(linkWidth, e, c + 1, total)
    else total + Size(e, c) >= WORD32 || Overflows(linkWidth, e, c + 1, total + Size(e, c))
  }

  /** It cannot if the link is not almost 2^32 bytes wide. */
  lemma {:induction false} NarrowEnough(linkWidth: nat, e: Edge, c: nat, total: nat)
    requires Sized(e) && linkWidth + MAX_WIDTH <= WORD32
    ensures !Overflows(linkWidth, e, c, total)
    decreases |e.input| - c
  {
    if c < |e.input| {
      NarrowEnough(linkWidth, e, c + 1, total);
      NarrowEnough(linkWidth, e, c + 1, total + Size(e, c));
    }
  }

  /** Only the channels from `c` on matter. */
  lemma {:induction false} SameOverflow(linkWidth: nat, e: Edge, f: Edge, c: nat, total: nat)
    requires |f.input| == |e.input| && |f.output| == |e.output|
    requires forall k :: c <= k < |e.input| ==> f.input[k] == e.input[k]
    requires forall k :: c <= k < |e.output| ==> f.output[k] == e.output[k]
    ensures Overflows(linkWidth, e, c, total) == Overflows(linkWidth, f, c, total)
    decreases |e.input| - c
  {
    if c < |e.input| {
      SameOverflow(linkWidth, e, f, c + 1, total);
      SameOverflow(linkWidth, e, f, c + 1, total + Size(e, c));
    }
  }

  /** The budget is kept, or the sum has wrapped and 2^32 bytes or more have been moved. */
  predicate Kept(linkWidth: nat, e: Edge, e': Edge, c: nat, total: nat) {
    var bytes, count := MovedBytes(e, e', c, |e.input|), MovedCount(e, e', c, |e.input|);
    if Overflows(linkWidth, e, c, total) then total + bytes >= WORD32
    else count == 0 || total + bytes <= linkWidth || (total == 0 && count == 1)
  }

  /**
   What is left of the budget bounds what the remaining channels move; only a packet that starts the budget may exceed
   it. Unless the 32-bit sum of bytes wraps: then they move 2^32 bytes or more.
   */
  lemma {:induction false} Budget(linkWidth: nat, e: Edge, c: nat, total: nat)
    requires Sized(e) && linkWidth < WORD32
    ensures Kept(linkWidth, e, Transfer(linkWidth, e, c, total), c, total)
    decreases |e.input| - c
  {
    hide Moved, Transfer, MovedBytes, MovedCount, Overflows;
    var e', n := Transfer(linkWidth, e, c, total), |e.input|;
    BudgetStep(linkWidth, e, c, total);
    if c >= n || total >= linkWidth {
      NoMoves(e, c, n);
    } else if Passed(linkWidth, e, c, total) {
      Budget(linkWidth, e, c + 1, total);
      PassedOver(linkWidth, e, c, total);
    } else {
      var f, sum := Edge(e.input[c := None], e.output[c := e.input[c]]), total + Size(e, c);
      TakenAlong(linkWidth, e, c, total);
      if sum < WORD32 {
        Budget(linkWidth, f, c + 1, sum);
        SameMoves(e, f, e', c + 1, n);
        SameOverflow(linkWidth, e, f, c + 1, sum);
        if MovedCount(f, e', c + 1, n) == 0 {
          NothingMoved(f, e', c + 1, n);
        }
      }
    }
  }

  lemma BudgetStep(linkWidth: nat, e: Edge, c: nat, total: nat)
    ensures c >= |e.input| || total >= linkWidth ==>
              !Overflows(linkWidth, e, c, total) && (Sized(e) ==> Transfer(linkWidth, e, c, total) == e)
    ensures c < |e.input| && total < linkWidth ==>
              Overflows(linkWidth, e, c, total) ==
              if Passed(linkWidth, e, c, total) then Overflows(linkWidth, e, c + 1, total)
              else total + Size(e, c) >= WORD32 || Overflows(linkWidth, e, c + 1, total + Size(e, c))
  {
  }

  lemma MovesAt(e: Edge, e': Edge, lo: nat, hi: nat)
    requires lo < hi
    ensures MovedBytes(e, e', lo, hi) == (if Moves(e, e', lo) then Size(e, lo) else 0) + MovedBytes(e, e', lo + 1, hi)
    ensures MovedCount(e, e', lo, hi) == (if Moves(e, e', lo) then 1 else 0) + MovedCount(e, e', lo + 1, hi)
  {
  }

  lemma PassedOver(linkWidth: nat, e: Edge, c: nat, total: nat)
    requires Sized(e) && linkWidth < WORD32 && c < |e.input| && total < linkWidth && Passed(linkWidth, e, c, total)
    ensures var e', n := Transfer(linkWidth, e, c, total), |e.input|;
            && e' == Transfer(linkWidth, e, c + 1, total) && !Moves(e, e', c)
            && MovedBytes(e, e', c, n) == MovedBytes(e, e', c + 1, n)
            && MovedCount(e, e', c, n) == MovedCount(e, e', c + 1, n)
  {
    hide Moved, MovedBytes, MovedCount;
    NoWrap(total + Size(e, c));
    Stays(linkWidth, e, c, total);
    MovesAt(e, Transfer(linkWidth, e, c, total), c, |e.input|);
  }

  lemma TakenAlong(linkWidth: nat, e: Edge, c: nat, total: nat)
    requires Sized(e) && linkWidth < WORD32 && c < |e.input| && total < linkWidth && !Passed(linkWidth, e, c, total)
    ensures var e', n := Transfer(linkWidth, e, c, total), |e.input|;
            && e' == Transfer(linkWidth, Edge(e.input[c := None], e.output[c := e.input[c]]), c + 1,
                              (total + Size(e, c)) % WORD32)
            && Moves(e, e', c)
            && MovedBytes(e, e', c, n) == Size(e, c) + MovedBytes(e, e', c + 1, n)
            && MovedCount(e, e', c, n) == 1 + MovedCount(e, e', c + 1, n)
            && (total + Size(e, c) < WORD32 ==> (total + Size(e, c)) % WORD32 == total + Size(e, c))
  {
    hide Moved, MovedBytes, MovedCount;
    NoWrap(total + Size(e, c));
    Stays(linkWidth, Edge(e.input[c := None], e.output[c := e.input[c]]), c, (total + Size(e, c)) % WORD32);
    MovesAt(e, Transfer(linkWidth, e, c, total), c, |e.input|);
  }

  /** Channels that have been dealt with are not touched again. */
  lemma Stays(linkWidth: nat, e: Edge, c: nat, total: nat)
    requires c < |e.input| == |e.output|
    ensures |Transfer(linkWidth, e, c + 1, total).input| == |e.input|
    ensures Transfer(linkWidth, e, c + 1, total).input[c] == e.input[c]
  {
    TransferMoves(linkWidth, e, c + 1, total);
  }

  /** A packet that could move and does not has been crowded out by lower channels. */
  predicate CrowdedOut(linkWidth: nat, e: Edge, e': Edge, total: nat, lo: nat, c: nat) {
    c < |e.input| && c < |e.output| && e.input[c].Some? && e.output[c].None? && !Moves(e, e', c) ==>
      0 < total + MovedBytes(e, e', lo, c) && linkWidth < total + MovedBytes(e, e', lo, c) + Size(e, c)
  }

  /** `moved` bytes have moved, and `total` is that sum in 32 bits. */
  lemma {:induction false} Greedy(linkWidth: nat, e: Edge, c: nat, total: nat, moved: nat, d: nat)
    requires Sized(e) && 0 < linkWidth < WORD32 && c <= d < |e.input| && (total == moved || WORD32 <= moved)
    ensures CrowdedOut(linkWidth, e, Transfer(linkWidth, e, c, total), moved, c, d)
    decreases |e.input| - c
  {
    hide Moved, Transfer, MovedBytes, MovedCount;
    var e' := Transfer(linkWidth, e, c, total);
    BudgetStep(linkWidth, e, c, total);
    NothingYet(e, e', c);
    if total >= linkWidth {
      NoMoves(e, c, d);
    } else if Passed(linkWidth, e, c, total) {
      PassedOver(linkWidth, e, c, total);
      if d > c {
        MovesAt(e, e', c, d);
        Greedy(linkWidth, e, c + 1, total, moved, d);
      }
    } else {
      var f, sum := Edge(e.input[c := None], e.output[c := e.input[c]]), total + Size(e, c);
      TakenAlong(linkWidth, e, c, total);
      if d > c {
        MovesAt(e, e', c, d);
        Greedy(linkWidth, f, c + 1, sum % WORD32, moved + Size(e, c), d);
        SameMoves(e, f, e', c + 1, d);
      }
    }
  }

  lemma NothingYet(e: Edge, e': Edge, c: nat)
    ensures MovedBytes(e, e', c, c) == 0
  {
  }

  /** Packets on a link of a consistent bus have the width of their channel. */
  lemma LinkSized(T: Topology, sent: seq<Message>, s: Net, l: Link)
    requires PlacesOk(T, sent, s) && l in s.edges
    ensures Sized(s.edges[l])
  {
    hide NodesOk, PortsOk, OnPath, PacketCount;
    var e := s.edges[l];
    assert EdgeOk(T, sent, l, e);
    forall c | 0 <= c < |e.input| && e.input[c].Some? ensures 0 < |e.input[c].value.data| <= MAX_WIDTH {
      assert RightPlace(T, sent, l.0, e.input[c].value);
    }
  }

  /** What a link moved in a tick: at most its width in bytes, or a single wider packet; the lowest channels first. */
  predicate WithinBudget(linkWidth: nat, e: Edge, e': Edge) {
    && (MovedBytes(e, e', 0, |e.input|) <= linkWidth || MovedCount(e, e', 0, |e.input|) == 1)
    && forall d :: 0 <= d < |e.input| ==> CrowdedOut(linkWidth, e, e', 0, 0, d)
  }

  lemma KeepsBudget(linkWidth: nat, e: Edge)
    requires Sized(e) && 0 < linkWidth < WORD32 && !Overflows(linkWidth, e, 0, 0)
    ensures WithinBudget(linkWidth, e, Transfer(linkWidth, e, 0, 0))
  {
    hide Transfer, Sized, Overflows, MovedBytes, MovedCount, CrowdedOut;
    var e', n := Transfer(linkWidth, e, 0, 0), |e.input|;
    Budget(linkWidth, e, 0, 0);
    if MovedCount(e, e', 0, n) == 0 {
      NothingMoved(e, e', 0, n);
    }
    forall d | 0 <= d < n ensures CrowdedOut(linkWidth, e, e', 0, 0, d) {
      Greedy(linkWidth, e, 0, 0, 0, d);
    }
  }

  lemma {:induction false} NothingMoved(e: Edge, e': Edge, lo: nat, hi: nat)
    requires MovedCount(e, e', lo, hi) == 0
    ensures MovedBytes(e, e', lo, hi) == 0
    decreases hi - lo
  {
    if lo < hi {
      NothingMoved(e, e', lo + 1, hi);
    }
  }

  lemma LinkUsable(T: Topology)
    requires T.Valid()
    ensures 0 < T.config.linkWidth < WORD32
  {
  }
}
