/** Splitting a scalar memory access at boundary blocks. */
module MemParse {
  import opened Arith
  import opened MultiWord

  datatype LoadDescriptor = LoadDescriptor(addr: Word64, size: nat, regOffset: nat)
  datatype StoreDescriptor = StoreDescriptor(addr: Word64, rawData: seq<byte>)

  /** The decoded fields the splitting depends on. */
  datatype Inst = Inst(isLoad: bool, isStore: bool, funct3: nat, imm: int)

  /** `NoResult` stands for a loop that has not ended within its steps, or a copy from outside a buffer. */
  datatype ParseResult = Parsed | IllegalInstruction | MisalignedAddress | NoResult

  function Wrap(x: int): Word64 { x % WORD64 }

  function Address(rs1: Word64, imm: int): Word64 { Wrap(rs1 + imm) }

  /** 1, 2, 4 or 8 bytes. */
  function AccessSize(funct3: nat): (size: nat)
    ensures size in {1, 2, 4, 8}
  {
    match funct3 % 4
    case 0 => 1
    case 1 => 2
    case 2 => 4
    case _ => 8
  }

  /** The end of the block that `p` lies in. */
  function Stop(p: nat, boundary: nat): (stop: nat)
    requires boundary > 0
  {
    (p / boundary + 1) * boundary
  }

  /** The last address of the block of `addr`, in wrapping arithmetic. */
  function BlockEnd(addr: Word64, boundary: nat): Word64
    requires boundary > 0
  {
    Wrap(Stop(addr, boundary) - 1)
  }

  /** How many bytes the loop takes next, before its result is cut to a field. */
  function SegmentSize(curr: Word64, end: Word64, turn: Word64): Word64 {
    if end <= turn then Wrap(end - curr + 1) else Wrap(turn - curr + 1)
  }

  const WORD16 := 0x1_0000

  /** What a loop has pushed, and whether it has ended within its rounds. */
  datatype Pieces<D> = Pieces(pushed: seq<D>, ended: bool)

  function Cons<D>(d: D, rest: Pieces<D>): Pieces<D> { Pieces([d] + rest.pushed, rest.ended) }

  /** The load loop from an address and a block end on, for at most `steps` rounds. */
  function LoadLoop(addr: Word64, end: Word64, boundary: nat, curr: Word64, turn: Word64,
                    steps: nat): Pieces<LoadDescriptor>
    decreases steps
  {
    if curr > end || steps == 0 then Pieces([], curr > end)
    else
      var size := SegmentSize(curr, end, turn) % WORD16;
      var d := LoadDescriptor(curr, size, Wrap(curr - addr) % WORD16);
      Cons(d, LoadLoop(addr, end, boundary, Wrap(curr + size), Wrap(turn + boundary), steps - 1))
  }

  /**
   `ds` covers `[curr, stop)` in order, without gap or overlap, in non-empty pieces none of which crosses a block
   boundary and each of which reaches the end of its block or of the access.
   */
  ghost predicate Tiles(ds: seq<LoadDescriptor>, addr: nat, curr: nat, stop: nat, boundary: nat)
    decreases |ds|
  {
    if curr >= stop then ds == [] && curr == stop
    else
      && ds != [] && ds[0].addr == curr && ds[0].size > 0 && curr + ds[0].size <= stop && ds[0].regOffset == curr - addr
      && (boundary > 0 ==> (curr + ds[0].size - 1) / boundary == curr / boundary)
      && (curr + ds[0].size == stop || (boundary > 0 && (curr + ds[0].size) % boundary == 0))
      && Tiles(ds[1..], addr, curr + ds[0].size, stop, boundary)
  }

  /** Neither the access nor the block of its last byte reaches past the top of the address space. */
  predicate Fits(addr: Word64, size: nat, boundary: nat)
    requires boundary > 0 && size > 0
  {
    addr + size < WORD64 && Stop(addr + size - 1, boundary) <= WORD64
  }

  // ----- The loop inside the address space -----

  lemma NextBlock(curr: nat, boundary: nat)
    requires boundary > 0
    ensures var stop := Stop(curr, boundary);
            && curr < stop <= curr + boundary && stop % boundary == 0 && Stop(stop, boundary) == stop + boundary
  {
    DivModFacts(curr, boundary);
    var k := curr / boundary;
    assert (k + 1) * boundary == k * boundary + boundary;
    DivUnique((k + 1) * boundary, boundary, k + 1);
    assert (k + 2) * boundary == (k + 1) * boundary + boundary;
  }

  lemma SameBlock(curr: nat, p: nat, boundary: nat)
    requires boundary > 0 && curr <= p < Stop(curr, boundary)
    ensures p / boundary == curr / boundary && Stop(p, boundary) == Stop(curr, boundary)
  {
    DivModFacts(curr, boundary);
    assert (curr / boundary + 1) * boundary == (curr / boundary) * boundary + boundary;
    DivUnique(p, boundary, curr / boundary);
  }

  /** The block ends seen by the loop never lie beyond the block of the last byte. */
  lemma EarlierBlock(curr: nat, last: nat, boundary: nat)
    requires boundary > 0 && curr <= last
    ensures Stop(curr, boundary) <= Stop(last, boundary)
  {
    DivModFacts(curr, boundary);
    DivModFacts(last, boundary);
    if last / boundary < curr / boundary {
      MulStep(last / boundary, curr / boundary, boundary);
    }
    MulMonotone(curr / boundary + 1, last / boundary + 1, boundary);
  }

  lemma WrapIs(x: int)
    ensures 0 <= x < WORD64 ==> Wrap(x) == x
    ensures WORD64 <= x < 2 * WORD64 ==> Wrap(x) == x - WORD64
  {
    if 0 <= x < WORD64 {
      DivUnique(x, WORD64, 0);
    } else if WORD64 <= x < 2 * WORD64 {
      DivUnique(x, WORD64, 1);
    }
  }

  /** What one round of the loop does as long as its block lies inside the address space. */
  lemma GoodRound(addr: Word64, size: nat, boundary: nat, curr: Word64, turn: Word64)
    requires 0 < boundary < 256 && 0 < size <= 8 && addr + size < WORD64 && addr <= curr < addr + size
    requires Stop(curr, boundary) <= WORD64 && turn == Stop(curr, boundary) - 1
    ensures var end, stop := addr + size - 1, Stop(curr, boundary);
            var seg := SegmentSize(curr, end, turn) % WORD16;
            && seg == (if end < stop then addr + size - curr else stop - curr) && 0 < seg && curr + seg <= addr + size
            && Wrap(curr + seg) == curr + seg && Wrap(curr - addr) % WORD16 == curr - addr
            && SegmentSize(curr, end, turn) == seg && Wrap(curr - addr) == curr - addr
  {
    hide Wrap, Stop;
    var end, stop := addr + size - 1, Stop(curr, boundary);
    NextBlock(curr, boundary);
    WrapIs(end - curr + 1);
    WrapIs(turn - curr + 1);
    WrapIs(curr - addr);
    var seg := if end < stop then addr + size - curr else stop - curr;
    DivUnique(seg, WORD16, 0);
    DivUnique(curr - addr, WORD16, 0);
    WrapIs(curr + seg);
  }

  lemma {:induction false} LoopTiles(addr: Word64, size: nat, boundary: nat, curr: Word64, turn: Word64, steps: nat)
    requires 0 < boundary < 256 && 0 < size <= 8 && Fits(addr, size, boundary)
    requires addr <= curr <= addr + size && steps >= addr + size - curr
    requires curr < addr + size ==> turn == Stop(curr, boundary) - 1
    ensures var r := LoadLoop(addr, addr + size - 1, boundary, curr, turn, steps);
            r.ended && Tiles(r.pushed, addr, curr, addr + size, boundary)
    decreases steps
  {
    hide LoadLoop, Tiles, Stop, Wrap, SegmentSize;
    if curr < addr + size {
      var seg := SegmentSize(curr, addr + size - 1, turn) % WORD16;
      RoundStaysGood(addr, size, boundary, curr, turn);
      RoundInBlock(addr, size, boundary, curr, turn);
      LoopTiles(addr, size, boundary, curr + seg, Wrap(turn + boundary), steps - 1);
      FirstTile(addr, size, boundary, curr, turn, steps);
    } else {
      LoopDone(addr, size, boundary, turn, steps);
    }
  }

  lemma LoopDone(addr: Word64, size: nat, boundary: nat, turn: Word64, steps: nat)
    requires 0 < boundary && 0 < size && addr + size < WORD64
    ensures LoadLoop(addr, addr + size - 1, boundary, addr + size, turn, steps) == Pieces([], true)
    ensures Tiles([], addr, addr + size, addr + size, boundary)
  {
  }

  /** After a round the loop is at the end of the access or at the start of the next block. */
  lemma RoundStaysGood(addr: Word64, size: nat, boundary: nat, curr: Word64, turn: Word64)
    requires 0 < boundary < 256 && 0 < size <= 8 && Fits(addr, size, boundary) && addr <= curr < addr + size
    requires turn == Stop(curr, boundary) - 1
    ensures var seg := SegmentSize(curr, addr + size - 1, turn) % WORD16;
            && 0 < seg && curr + seg <= addr + size
            && Wrap(curr + seg) == curr + seg && Wrap(curr - addr) % WORD16 == curr - addr
            && (curr + seg < addr + size ==> Wrap(turn + boundary) == Stop(curr + seg, boundary) - 1)
            && SegmentSize(curr, addr + size - 1, turn) == seg && Wrap(curr - addr) == curr - addr
  {
    hide SegmentSize, Stop, Wrap;
    var end := addr + size - 1;
    EarlierBlock(curr, end, boundary);
    GoodRound(addr, size, boundary, curr, turn);
    NextStop(curr, boundary);
    var seg := SegmentSize(curr, end, turn) % WORD16;
    if curr + seg < addr + size {
      EarlierBlock(curr + seg, end, boundary);
      WrapIs(turn + boundary);
    }
  }

  /** What the loop takes lies in one block, and ends there unless it is the end of the access. */
  lemma RoundInBlock(addr: Word64, size: nat, boundary: nat, curr: Word64, turn: Word64)
    requires 0 < boundary < 256 && 0 < size <= 8 && Fits(addr, size, boundary) && addr <= curr < addr + size
    requires turn == Stop(curr, boundary) - 1
    ensures var seg := SegmentSize(curr, addr + size - 1, turn) % WORD16;
            && (curr + seg - 1) / boundary == curr / boundary
            && (curr + seg == addr + size || (curr + seg) % boundary == 0)
  {
    hide SegmentSize, Stop, Wrap;
    var end := addr + size - 1;
    EarlierBlock(curr, end, boundary);
    GoodRound(addr, size, boundary, curr, turn);
    NextBlock(curr, boundary);
    SameBlock(curr, curr + SegmentSize(curr, end, turn) % WORD16 - 1, boundary);
  }

  lemma FirstTile(addr: Word64, size: nat, boundary: nat, curr: Word64, turn: Word64, steps: nat)
    requires 0 < boundary && 0 < size && addr + size < WORD64 && addr <= curr < addr + size && steps > 0
    requires var end := addr + size - 1;
             var seg := SegmentSize(curr, end, turn) % WORD16;
             && 0 < seg && curr + seg <= addr + size && Wrap(curr + seg) == curr + seg
             && Wrap(curr - addr) % WORD16 == curr - addr
             && (curr + seg - 1) / boundary == curr / boundary
             && (curr + seg == addr + size || (curr + seg) % boundary == 0)
             && var rest := LoadLoop(addr, end, boundary, curr + seg, Wrap(turn + boundary), steps - 1);
             rest.ended && Tiles(rest.pushed, addr, curr + seg, addr + size, boundary)
    ensures var r := LoadLoop(addr, addr + size - 1, boundary, curr, turn, steps);
            r.ended && Tiles(r.pushed, addr, curr, addr + size, boundary)
  {
    var end := addr + size - 1;
    var seg := SegmentSize(curr, end, turn) % WORD16;
    var rest := LoadLoop(addr, end, boundary, curr + seg, Wrap(turn + boundary), steps - 1).pushed;
    var r := LoadLoop(addr, end, boundary, curr, turn, steps);
    assert r.pushed == [LoadDescriptor(curr, seg, curr - addr)] + rest;
    assert r.pushed[1..] == rest;
  }

  // ----- The loop at the top of the address space -----

  /** Whatever is tiled ends at or before the end. */
  lemma {:induction false} TileEnds(ds: seq<LoadDescriptor>, addr: nat, curr: nat, stop: nat, boundary: nat, i: nat)
    requires Tiles(ds, addr, curr, stop, boundary) && i < |ds|
    ensures ds[i].addr + ds[i].size <= stop
    decreases |ds|
  {
    if i > 0 {
      TileEnds(ds[1..], addr, curr + ds[0].size, stop, boundary, i - 1);
    }
  }

  /** An access that ends exactly at 2^64 never leaves the loop. */
  lemma {:induction false} NeverEnds(addr: Word64, boundary: nat, curr: Word64, turn: Word64, steps: nat)
    ensures !LoadLoop(addr, WORD64 - 1, boundary, curr, turn, steps).ended
    decreases steps
  {
    if steps > 0 {
      var size := SegmentSize(curr, WORD64 - 1, turn) % WORD16;
      NeverEnds(addr, boundary, Wrap(curr + size), Wrap(turn + boundary), steps - 1);
    }
  }

  /** One of the pieces runs past the end of the access. */
  ghost predicate Overruns(ds: seq<LoadDescriptor>, limit: nat) {
    exists i :: 0 <= i < |ds| && ds[i].addr + ds[i].size > limit
  }

  lemma OverrunLater(addr: Word64, end: Word64, boundary: nat, curr: Word64, turn: Word64, steps: nat, limit: nat)
    requires steps > 0 && curr <= end
    requires var size := SegmentSize(curr, end, turn) % WORD16;
             || curr + size > limit
             || Overruns(LoadLoop(addr, end, boundary, Wrap(curr + size), Wrap(turn + boundary), steps - 1).pushed,
                         limit)
    ensures Overruns(LoadLoop(addr, end, boundary, curr, turn, steps).pushed, limit)
  {
    var size := SegmentSize(curr, end, turn) % WORD16;
    var rest := LoadLoop(addr, end, boundary, Wrap(curr + size), Wrap(turn + boundary), steps - 1).pushed;
    var all := LoadLoop(addr, end, boundary, curr, turn, steps).pushed;
    if curr + size > limit {
      assert all[0].addr + all[0].size > limit;
    } else {
      var i :| 0 <= i < |rest| && rest[i].addr + rest[i].size > limit;
      assert all[i + 1] == rest[i];
    }
  }

  /**
   If the block of the last byte reaches past 2^64, its end wraps, and within as many rounds as there are bytes left the
   loop pushes a piece that is too long, whether or not it ever ends.
   */
  lemma {:induction false} LoopOverruns(addr: Word64, size: nat, boundary: nat, curr: Word64, turn: Word64, steps: nat)
    requires 0 < boundary < 256 && 0 < size <= 8 && addr + size < WORD64 && addr <= curr < addr + size
    requires Stop(addr + size - 1, boundary) > WORD64
    requires turn == Wrap(Stop(curr, boundary) - 1)
    requires steps >= addr + size - curr
    ensures Overruns(LoadLoop(addr, addr + size - 1, boundary, curr, turn, steps).pushed, addr + size)
    decreases steps
  {
    hide LoadLoop, Overruns, SegmentSize, Wrap, Stop;
    var end, stop := addr + size - 1, Stop(curr, boundary);
    if stop > WORD64 {
      TopRound(addr, size, boundary, curr, turn);
    } else {
      LowRound(addr, size, boundary, curr, turn);
      LoopOverruns(addr, size, boundary, curr + SegmentSize(curr, end, turn) % WORD16, Wrap(turn + boundary),
                   steps - 1);
    }
    OverrunLater(addr, end, boundary, curr, turn, steps, addr + size);
  }

  /** More rounds only add pieces at the end. */
  lemma {:induction false} MoreRounds(addr: Word64, end: Word64, boundary: nat, curr: Word64, turn: Word64, few: nat,
                                      many: nat)
    requires few <= many
    ensures var f, m := LoadLoop(addr, end, boundary, curr, turn, few), LoadLoop(addr, end, boundary, curr, turn, many);
            f.pushed <= m.pushed && (f.ended ==> f == m)
    decreases few
  {
    if curr <= end && few > 0 {
      var size := SegmentSize(curr, end, turn) % WORD16;
      MoreRounds(addr, end, boundary, Wrap(curr + size), Wrap(turn + boundary), few - 1, many - 1);
    }
  }

  /** The round in the top block. */
  lemma TopRound(addr: Word64, size: nat, boundary: nat, curr: Word64, turn: Word64)
    requires 0 < boundary < 256 && 0 < size <= 8 && addr + size < WORD64 && addr <= curr < addr + size
    requires Stop(curr, boundary) > WORD64 && turn == Wrap(Stop(curr, boundary) - 1)
    ensures curr + SegmentSize(curr, addr + size - 1, turn) % WORD16 > addr + size
  {
    hide Wrap, Stop;
    var stop := Stop(curr, boundary);
    NextBlock(curr, boundary);
    WrapIs(stop - 1);
    WrapIs(turn - curr + 1 + WORD64);
    WrapShift(turn - curr + 1);
    DivUnique(stop - curr, WORD16, 0);
  }

  /** A round in an earlier block. */
  lemma LowRound(addr: Word64, size: nat, boundary: nat, curr: Word64, turn: Word64)
    requires 0 < boundary < 256 && 0 < size <= 8 && addr + size < WORD64 && addr <= curr < addr + size
    requires Stop(addr + size - 1, boundary) > WORD64
    requires Stop(curr, boundary) <= WORD64 && turn == Wrap(Stop(curr, boundary) - 1)
    ensures var seg := SegmentSize(curr, addr + size - 1, turn) % WORD16;
            && 0 < seg && Wrap(curr + seg) == curr + seg && curr + seg < addr + size
            && Wrap(turn + boundary) == Wrap(Stop(curr + seg, boundary) - 1)
  {
    hide SegmentSize, Wrap, Stop;
    var end, stop := addr + size - 1, Stop(curr, boundary);
    NextStop(curr, boundary);
    WrapIs(stop - 1);
    GoodRound(addr, size, boundary, curr, turn);
    LowerBlock(curr, end, boundary);
    FullSegment(curr, stop, end, boundary, turn, SegmentSize(curr, end, turn) % WORD16);
  }

  lemma NextStop(curr: nat, boundary: nat)
    requires boundary > 0
    ensures curr < Stop(curr, boundary) && Stop(Stop(curr, boundary), boundary) == Stop(curr, boundary) + boundary
  {
    hide Stop;
    NextBlock(curr, boundary);
  }

  /** A segment that reaches the end of its block leads to the next one. */
  lemma FullSegment(curr: nat, stop: nat, end: nat, boundary: nat, turn: nat, seg: nat)
    requires boundary > 0 && stop <= end && turn == stop - 1 && Stop(stop, boundary) == stop + boundary
    requires seg == if end < stop then end + 1 - curr else stop - curr
    ensures curr + seg == stop <= end && turn + boundary == Stop(curr + seg, boundary) - 1
  {
  }

  lemma WrapShift(x: int)
    ensures Wrap(x) == Wrap(x + WORD64)
  {
    DivModFacts(x, WORD64);
    DivUnique(x + WORD64, WORD64, x / WORD64 + 1);
  }

  lemma LowerBlock(curr: nat, end: nat, boundary: nat)
    requires boundary > 0 && curr <= end && Stop(curr, boundary) < Stop(end, boundary)
    ensures end >= Stop(curr, boundary)
  {
    hide Stop;
    if end < Stop(curr, boundary) {
      SameBlock(curr, end, boundary);
    }
  }

  /**
   When splitting works: with a boundary, the loop ends with a tiling of the access exactly when neither the access
   nor the block of its last byte reaches past the top of the address space. Otherwise it produces nothing, produces
   a piece that is too long, or never ends.
   */
  lemma SplitsIff(addr: Word64, size: nat, boundary: nat)
    requires 0 < boundary < 256 && 0 < size <= 8
    ensures Fits(addr, size, boundary) <==>
            exists steps: nat :: SplitWorks(addr, size, boundary, steps)
  {
    hide LoadLoop, Tiles, LoadSplit;
    if Fits(addr, size, boundary) {
      LoadFits(addr, size, boundary, size);
      assert SplitWorks(addr, size, boundary, size);
    } else {
      forall steps: nat ensures !SplitWorks(addr, size, boundary, steps) {
        SplitFails(addr, size, boundary, steps);
      }
    }
  }

  lemma LoadFits(addr: Word64, size: nat, boundary: nat, steps: nat)
    requires 0 < boundary < 256 && 0 < size <= 8 && Fits(addr, size, boundary) && steps >= size
    ensures var r := LoadSplit(addr, size, boundary, steps);
            r.ended && Tiles(r.pushed, addr, addr, addr + size, boundary)
  {
    hide LoadLoop, Tiles;
    NextBlock(addr, boundary);
    EarlierBlock(addr, addr + size - 1, boundary);
    WrapIs(Stop(addr, boundary) - 1);
    WrapIs(addr + size - 1);
    LoopTiles(addr, size, boundary, addr, BlockEnd(addr, boundary), steps);
  }

  function LoadSplit(addr: Word64, size: nat, boundary: nat, steps: nat): Pieces<LoadDescriptor>
    requires boundary > 0
  {
    LoadLoop(addr, Wrap(addr + size - 1), boundary, addr, BlockEnd(addr, boundary), steps)
  }

  ghost predicate SplitWorks(addr: Word64, size: nat, boundary: nat, steps: nat)
    requires boundary > 0
  {
    var r := LoadSplit(addr, size, boundary, steps);
    r.ended && Tiles(r.pushed, addr, addr, addr + size, boundary)
  }

  lemma SplitFails(addr: Word64, size: nat, boundary: nat, steps: nat)
    requires 0 < boundary < 256 && 0 < size <= 8 && !Fits(addr, size, boundary)
    ensures !SplitWorks(addr, size, boundary, steps)
  {
    hide LoadLoop, Tiles, Overruns;
    WrapIs(addr + size - 1);
    var end, turn := Wrap(addr + size - 1), BlockEnd(addr, boundary);
    if addr + size == WORD64 {
      NeverEnds(addr, boundary, addr, turn, steps);
    } else if addr + size < WORD64 {
      LoopOverruns(addr, size, boundary, addr, turn, steps + size);
      MoreRounds(addr, end, boundary, addr, turn, steps, steps + size);
      OverrunsDoNotTile(LoadSplit(addr, size, boundary, steps).pushed, addr, addr + size, boundary);
    } else {
      NothingPushed(addr, end, boundary, turn, steps);
      NothingTiles(addr, addr + size, boundary);
    }
  }

  lemma OverrunsDoNotTile(ds: seq<LoadDescriptor>, addr: nat, stop: nat, boundary: nat)
    ensures Overruns(ds, stop) ==> !Tiles(ds, addr, addr, stop, boundary)
  {
    hide Tiles;
    if Overruns(ds, stop) && Tiles(ds, addr, addr, stop, boundary) {
      var i :| 0 <= i < |ds| && ds[i].addr + ds[i].size > stop;
      TileEnds(ds, addr, addr, stop, boundary, i);
    }
  }

  lemma NothingPushed(addr: Word64, end: Word64, boundary: nat, turn: Word64, steps: nat)
    requires addr > end
    ensures LoadLoop(addr, end, boundary, addr, turn, steps).pushed == []
  {
  }

  lemma NothingTiles(addr: nat, stop: nat, boundary: nat)
    requires addr < stop
    ensures !Tiles([], addr, addr, stop, boundary)
  {
  }

  /** One descriptor for every block the access touches. */
  lemma {:induction false} TileCount(ds: seq<LoadDescriptor>, addr: nat, curr: nat, stop: nat, boundary: nat)
    requires boundary > 0 && curr < stop && Tiles(ds, addr, curr, stop, boundary)
    ensures |ds| == (stop - 1) / boundary - curr / boundary + 1
    decreases |ds|
  {
    var next := curr + ds[0].size;
    if next < stop {
      TileCount(ds[1..], addr, next, stop, boundary);
      DivModFacts(next, boundary);
      DivUnique(next - 1, boundary, next / boundary - 1);
    }
  }

  /** Every byte of the access lies in exactly one descriptor. */
  lemma {:induction false} CoversOnce(ds: seq<LoadDescriptor>, addr: nat, curr: nat, stop: nat, boundary: nat, p: nat)
    returns (i: nat)
    requires Tiles(ds, addr, curr, stop, boundary) && curr <= p < stop
    ensures i < |ds| && ds[i].addr <= p < ds[i].addr + ds[i].size
    ensures forall j :: 0 <= j < |ds| && ds[j].addr <= p < ds[j].addr + ds[j].size ==> j == i
    decreases |ds|
  {
    var next := curr + ds[0].size;
    if p < next {
      i := 0;
      forall j | 0 < j < |ds| ensures ds[j].addr >= next {
        TileStarts(ds[1..], addr, next, stop, boundary, j - 1);
      }
    } else {
      i := CoversOnce(ds[1..], addr, next, stop, boundary, p);
      i := i + 1;
      forall j | 0 <= j < |ds| && ds[j].addr <= p < ds[j].addr + ds[j].size ensures j == i {
        if j > 0 {
          assert ds[1..][j - 1] == ds[j];
        }
      }
    }
  }

  lemma {:induction false} TileStarts(ds: seq<LoadDescriptor>, addr: nat, curr: nat, stop: nat, boundary: nat, i: nat)
    requires Tiles(ds, addr, curr, stop, boundary) && i < |ds|
    ensures ds[i].addr >= curr
    decreases |ds|
  {
    if i > 0 {
      TileStarts(ds[1..], addr, curr + ds[0].size, stop, boundary, i - 1);
    }
  }

  // ----- Stores -----

  /** The store loop; it does not end when it would have to copy bytes from outside the data. */
  function StoreLoop(addr: Word64, end: Word64, boundary: nat, data: seq<byte>, curr: Word64, turn: Word64,
                     steps: nat): Pieces<StoreDescriptor>
    decreases steps
  {
    if curr > end || steps == 0 || Wrap(curr - addr) + SegmentSize(curr, end, turn) > |data| then Pieces([], curr > end)
    else
      var size, offset := SegmentSize(curr, end, turn), Wrap(curr - addr);
      Cons(StoreDescriptor(curr, data[offset..offset + size]),
           StoreLoop(addr, end, boundary, data, Wrap(curr + size), Wrap(turn + boundary), steps - 1))
  }

  /** The addresses and sizes of stores, as load descriptors. */
  function AsLoads(ds: seq<StoreDescriptor>, addr: Word64): seq<LoadDescriptor> {
    if ds == [] then []
    else [LoadDescriptor(ds[0].addr, |ds[0].rawData|, Wrap(ds[0].addr - addr))] + AsLoads(ds[1..], addr)
  }

  /** Every store carries the bytes of the data that belong to its addresses. */
  ghost predicate Slices(ds: seq<StoreDescriptor>, addr: Word64, data: seq<byte>) {
    forall i :: 0 <= i < |ds| ==>
                  var offset := Wrap(ds[i].addr - addr);
                  offset + |ds[i].rawData| <= |data| && ds[i].rawData == data[offset..offset + |ds[i].rawData|]
  }

  /** A store is split exactly like a load, with the bytes that belong to each piece. */
  lemma {:induction false} StoreIsLoad(addr: Word64, end: Word64, boundary: nat, data: seq<byte>, curr: Word64,
                                       turn: Word64, steps: nat)
    requires |data| <= 8
    ensures var r := StoreLoop(addr, end, boundary, data, curr, turn, steps);
            r.ended ==>
              && Slices(r.pushed, addr, data)
              && LoadLoop(addr, end, boundary, curr, turn, steps) == Pieces(AsLoads(r.pushed, addr), true)
    decreases steps
  {
    hide SegmentSize, Slices, AsLoads;
    var r := StoreLoop(addr, end, boundary, data, curr, turn, steps);
    if r.ended && curr <= end {
      var size := SegmentSize(curr, end, turn);
      DivUnique(size, WORD16, 0);
      DivUnique(Wrap(curr - addr), WORD16, 0);
      StoreIsLoad(addr, end, boundary, data, Wrap(curr + size), Wrap(turn + boundary), steps - 1);
      var rest := StoreLoop(addr, end, boundary, data, Wrap(curr + size), Wrap(turn + boundary), steps - 1).pushed;
      MoreSlices(StoreDescriptor(curr, data[Wrap(curr - addr)..Wrap(curr - addr) + size]), rest, addr, data);
    } else {
      NoSlices(addr, data);
    }
  }

  lemma NoSlices(addr: Word64, data: seq<byte>)
    ensures Slices([], addr, data) && AsLoads([], addr) == []
  {
  }

  lemma MoreSlices(d: StoreDescriptor, rest: seq<StoreDescriptor>, addr: Word64, data: seq<byte>)
    requires Slices(rest, addr, data)
    requires var offset := Wrap(d.addr - addr);
             offset + |d.rawData| <= |data| && d.rawData == data[offset..offset + |d.rawData|]
    ensures Slices([d] + rest, addr, data)
    ensures AsLoads([d] + rest, addr) == [LoadDescriptor(d.addr, |d.rawData|, Wrap(d.addr - addr))]
                                         + AsLoads(rest, addr)
  {
    hide Wrap;
    var ds := [d] + rest;
    assert ds[1..] == rest;
    forall i | 0 <= i < |ds|
      ensures var offset := Wrap(ds[i].addr - addr);
              offset + |ds[i].rawData| <= |data| && ds[i].rawData == data[offset..offset + |ds[i].rawData|]
    {
      if i > 0 {
        assert ds[i] == rest[i - 1];
      }
    }
  }

  lemma {:induction false} LoopStores(addr: Word64, boundary: nat, data: seq<byte>, curr: Word64, turn: Word64,
                                      steps: nat)
    requires 0 < boundary < 256 && 0 < |data| <= 8 && Fits(addr, |data|, boundary)
    requires addr <= curr <= addr + |data| && steps >= addr + |data| - curr
    requires curr < addr + |data| ==> turn == Stop(curr, boundary) - 1
    ensures StoreLoop(addr, addr + |data| - 1, boundary, data, curr, turn, steps).ended
    decreases steps
  {
    hide StoreLoop, SegmentSize, Wrap, Stop;
    var end := addr + |data| - 1;
    if curr < addr + |data| {
      RoundStaysGood(addr, |data|, boundary, curr, turn);
      LoopStores(addr, boundary, data, curr + SegmentSize(curr, end, turn), Wrap(turn + boundary), steps - 1);
      StoreRound(addr, end, boundary, data, curr, turn, steps);
    } else {
      StoreLast(addr, end, boundary, data, curr, turn, steps);
    }
  }

  function StoreSplit(addr: Word64, data: seq<byte>, boundary: nat, steps: nat): Pieces<StoreDescriptor>
    requires boundary > 0
  {
    StoreLoop(addr, Wrap(addr + |data| - 1), boundary, data, addr, BlockEnd(addr, boundary), steps)
  }

  /** `ds` stores exactly `data` at `addr`. */
  ghost predicate StoreTiles(ds: seq<StoreDescriptor>, addr: Word64, data: seq<byte>, boundary: nat) {
    Slices(ds, addr, data) && Tiles(AsLoads(ds, addr), addr, addr, addr + |data|, boundary)
  }

  lemma StoreFits(addr: Word64, data: seq<byte>, boundary: nat, steps: nat)
    requires 0 < boundary < 256 && 0 < |data| <= 8 && Fits(addr, |data|, boundary) && steps >= |data|
    ensures var r := StoreSplit(addr, data, boundary, steps); r.ended && StoreTiles(r.pushed, addr, data, boundary)
  {
    hide LoadLoop, StoreLoop, Tiles, Slices;
    NextBlock(addr, boundary);
    EarlierBlock(addr, addr + |data| - 1, boundary);
    WrapIs(Stop(addr, boundary) - 1);
    WrapIs(addr + |data| - 1);
    var turn := BlockEnd(addr, boundary);
    LoopStores(addr, boundary, data, addr, turn, steps);
    LoopTiles(addr, |data|, boundary, addr, turn, steps);
    StoreIsLoad(addr, addr + |data| - 1, boundary, data, addr, turn, steps);
  }

  /** Splitting a store works on exactly the accesses for which splitting a load does. */
  lemma StoreSplitsIff(addr: Word64, data: seq<byte>, boundary: nat)
    requires 0 < boundary < 256 && 0 < |data| <= 8
    ensures Fits(addr, |data|, boundary) <==>
            exists steps: nat :: StoreWorks(addr, data, boundary, steps)
  {
    hide StoreSplit, StoreTiles, LoadSplit, Tiles;
    if Fits(addr, |data|, boundary) {
      StoreFits(addr, data, boundary, |data|);
      assert StoreWorks(addr, data, boundary, |data|);
    } else {
      forall steps: nat ensures !StoreWorks(addr, data, boundary, steps) {
        SplitFails(addr, |data|, boundary, steps);
        StoreWorksLike(addr, data, boundary, steps);
      }
    }
  }

  ghost predicate StoreWorks(addr: Word64, data: seq<byte>, boundary: nat, steps: nat)
    requires boundary > 0
  {
    var r := StoreSplit(addr, data, boundary, steps);
    r.ended && StoreTiles(r.pushed, addr, data, boundary)
  }

  lemma StoreWorksLike(addr: Word64, data: seq<byte>, boundary: nat, steps: nat)
    requires 0 < boundary && |data| <= 8
    ensures StoreWorks(addr, data, boundary, steps) ==> SplitWorks(addr, |data|, boundary, steps)
  {
    hide LoadLoop, StoreLoop, Tiles, Slices;
    StoreIsLoad(addr, Wrap(addr + |data| - 1), boundary, data, addr, BlockEnd(addr, boundary), steps);
  }

  /** Without a boundary there is a single piece. */
  lemma Unsplit(addr: Word64, data: seq<byte>)
    requires 0 < |data|
    ensures Tiles([LoadDescriptor(addr, |data|, 0)], addr, addr, addr + |data|, 0)
    ensures StoreTiles([StoreDescriptor(addr, data)], addr, data, 0)
  {
    var ls := [LoadDescriptor(addr, |data|, 0)];
    assert ls[1..] == [];
    WrapIs(0);
    assert AsLoads([StoreDescriptor(addr, data)], addr) == ls;
    assert data[0..|data|] == data;
  }

  // ----- Memory -----

  type Memory = nat -> byte

  function Written(mem: Memory, ds: seq<StoreDescriptor>): Memory
    decreases |ds|
  {
    if ds == [] then mem
    else Written(StoredAt(mem, ds[0]), ds[1..])
  }

  function StoredAt(mem: Memory, d: StoreDescriptor): Memory {
    (p: nat) => if d.addr <= p < d.addr + |d.rawData| then d.rawData[p - d.addr] else mem(p)
  }

  function Place(reg: seq<byte>, offset: nat, bytes: seq<byte>): seq<byte> {
    if offset + |bytes| <= |reg| then reg[..offset] + bytes + reg[offset + |bytes|..] else reg
  }

  /** The register after the loaded pieces have been put at their offsets. */
  function Gathered(mem: Memory, ls: seq<LoadDescriptor>, reg: seq<byte>): seq<byte>
    decreases |ls|
  {
    if ls == [] then reg
    else Gathered(mem, ls[1..], Place(reg, ls[0].regOffset, seq(ls[0].size, i requires 0 <= i => mem(ls[0].addr + i))))
  }

  lemma {:induction false} WrittenTiles(mem: Memory, ds: seq<StoreDescriptor>, addr: Word64, data: seq<byte>, curr: nat,
                                        boundary: nat, p: nat)
    requires Slices(ds, addr, data) && Tiles(AsLoads(ds, addr), addr, curr, addr + |data|, boundary) && addr <= curr
    ensures Written(mem, ds)(p) == if curr <= p < addr + |data| then data[p - addr] else mem(p)
    decreases |ds|
  {
    hide Slices;
    if ds != [] {
      assert AsLoads(ds, addr)[1..] == AsLoads(ds[1..], addr);
      WrapIs(curr - addr);
      FirstSlice(ds, addr, data);
      WrittenTiles(StoredAt(mem, ds[0]), ds[1..], addr, data, curr + |ds[0].rawData|, boundary, p);
    }
  }

  lemma FirstSlice(ds: seq<StoreDescriptor>, addr: Word64, data: seq<byte>)
    requires ds != [] && Slices(ds, addr, data)
    ensures var offset := Wrap(ds[0].addr - addr);
            offset + |ds[0].rawData| <= |data| && ds[0].rawData == data[offset..offset + |ds[0].rawData|]
    ensures Slices(ds[1..], addr, data)
  {
  }

  lemma {:induction false} GatheredTiles(mem: Memory, ls: seq<LoadDescriptor>, addr: nat, curr: nat, boundary: nat,
                                         reg: seq<byte>)
    requires addr <= curr && Tiles(ls, addr, curr, addr + |reg|, boundary)
    requires forall i :: 0 <= i < curr - addr && i < |reg| ==> reg[i] == mem(addr + i)
    ensures |Gathered(mem, ls, reg)| == |reg|
    ensures forall i :: 0 <= i < |reg| ==> Gathered(mem, ls, reg)[i] == mem(addr + i)
    decreases |ls|
  {
    if ls != [] {
      var bytes := seq(ls[0].size, i requires 0 <= i => mem(ls[0].addr + i));
      GatheredTiles(mem, ls[1..], addr, curr + ls[0].size, boundary, Place(reg, ls[0].regOffset, bytes));
    }
  }

  /**
   Storing with one boundary and loading with any other gives back the bytes that were stored, and touches no others.
   */
  lemma StoreThenLoad(mem: Memory, addr: Word64, data: seq<byte>, ds: seq<StoreDescriptor>, b1: nat,
                      ls: seq<LoadDescriptor>, b2: nat, reg: seq<byte>)
    requires StoreTiles(ds, addr, data, b1) && Tiles(ls, addr, addr, addr + |data|, b2) && |reg| == |data|
    ensures Gathered(Written(mem, ds), ls, reg) == data
    ensures forall p: nat :: !(addr <= p < addr + |data|) ==> Written(mem, ds)(p) == mem(p)
  {
    hide Tiles, Slices, Written, Gathered;
    forall p: nat ensures Written(mem, ds)(p) == if addr <= p < addr + |data| then data[p - addr] else mem(p) {
      WrittenTiles(mem, ds, addr, data, addr, b1, p);
    }
    GatheredTiles(Written(mem, ds), ls, addr, addr, b2, reg);
  }

  // ----- The operations -----

  /** The low `n` bytes of a register, lowest first. */
  function LowBytes(value: nat, n: nat): (bytes: seq<byte>)
    ensures |bytes| == n
    decreases n
  {
    if n == 0 then [] else [value % 256] + LowBytes(value / 256, n - 1)
  }

  function ByteValue(bytes: seq<byte>): nat {
    if bytes == [] then 0 else bytes[0] + 256 * ByteValue(bytes[1..])
  }

  /** They denote the register's value modulo the range of the access. */
  lemma {:induction false} LowBytesValue(value: nat, n: nat)
    ensures Pow(256, n) > 0 && ByteValue(LowBytes(value, n)) == value % Pow(256, n)
    decreases n
  {
    PowPositive(256, n);
    if n > 0 {
      LowBytesValue(value / 256, n - 1);
      var p := Pow(256, n - 1);
      DivModFacts(value, 256);
      DivModFacts(value / 256, p);
      var q, r := value / 256 / p, (value / 256) % p;
      assert (q * p) * 256 == q * (256 * p);
      DivUnique(value, 256 * p, q);
    }
  }

  /** The first byte of the access, as an integer. */
  function Start(inst: Inst, rs1: Word64): Word64 { (rs1 + inst.imm) % 0x1_0000_0000_0000_0000 }

  /** How many bytes it has: the low two bits of the field are the exponent. */
  function Extent(inst: Inst): (size: nat)
    ensures size > 0
  {
    PowPositive(2, inst.funct3 % 4);
    Pow(2, inst.funct3 % 4)
  }

  /** The size and the address that the code computes. */
  lemma SizeAndStart(inst: Inst, rs1: Word64)
    ensures AccessSize(inst.funct3) == Extent(inst) <= 8
    ensures Address(rs1, inst.imm) == Start(inst, rs1)
  {
    assert Pow(2, 0) == 1 && Pow(2, 1) == 2 && Pow(2, 2) == 4 && Pow(2, 3) == 8;
  }

  /** What a parsed load leaves behind. */
  function LoadedBy(inst: Inst, rs1: Word64, boundary: nat, steps: nat): Pieces<LoadDescriptor> {
    var addr, size := Address(rs1, inst.imm), AccessSize(inst.funct3);
    if boundary == 0 then Pieces([LoadDescriptor(addr, size, 0)], true) else LoadSplit(addr, size, boundary, steps)
  }

  function StoredBy(inst: Inst, rs1: Word64, rs2: Word64, boundary: nat, steps: nat): Pieces<StoreDescriptor> {
    var addr, data := Address(rs1, inst.imm), LowBytes(rs2, AccessSize(inst.funct3));
    if boundary == 0 then Pieces([StoreDescriptor(addr, data)], true) else StoreSplit(addr, data, boundary, steps)
  }

  method ParseLoadScalar(inst: Inst, rs1: Word64, boundary: nat, misalignError: bool, desc0: seq<LoadDescriptor>,
                         steps: nat)
    returns (r: ParseResult, desc: seq<LoadDescriptor>)
    requires boundary < 256
    ensures r == IllegalInstruction <==> !inst.isLoad
    ensures r == MisalignedAddress <==>
            inst.isLoad && misalignError && Start(inst, rs1) % Extent(inst) != 0
    ensures r in {IllegalInstruction, MisalignedAddress} ==> desc == desc0
    ensures r in {Parsed, NoResult} ==>
              var made := LoadedBy(inst, rs1, boundary, steps);
              desc == desc0 + made.pushed && (r == Parsed <==> made.ended)
  {
    hide Tiles, LoadLoop, BlockEnd, SegmentSize, Address, AccessSize, Extent, Start;
    SizeAndStart(inst, rs1);
    desc := desc0;
    if !inst.isLoad {
      return IllegalInstruction, desc0;
    }
    var addr := Address(rs1, inst.imm);
    var size := AccessSize(inst.funct3);
    if misalignError && addr % size != 0 {
      return MisalignedAddress, desc0;
    }
    if boundary == 0 {
      return Parsed, desc0 + [LoadDescriptor(addr, size, 0)];
    }
    var endAddr := Wrap(addr + size - 1);
    var currAddr: Word64 := addr;
    var turn: Word64 := BlockEnd(addr, boundary);
    var i := 0;
    ghost var whole := LoadSplit(addr, size, boundary, steps);
    while currAddr <= endAddr && i < steps
      invariant i <= steps
      invariant var rest := LoadLoop(addr, endAddr, boundary, currAddr, turn, steps - i);
                desc + rest.pushed == desc0 + whole.pushed && rest.ended == whole.ended
      decreases steps - i
    {
      var bytes := SegmentSize(currAddr, endAddr, turn) % WORD16;
      LoadRound(addr, endAddr, boundary, currAddr, turn, steps - i);
      desc := desc + [LoadDescriptor(currAddr, bytes, Wrap(currAddr - addr) % WORD16)];
      currAddr := Wrap(currAddr + bytes);
      turn := Wrap(turn + boundary);
      i := i + 1;
    }
    LoadLast(addr, endAddr, boundary, currAddr, turn, steps - i);
    r := if currAddr > endAddr then Parsed else NoResult;
  }

  lemma LoadRound(addr: Word64, end: Word64, boundary: nat, curr: Word64, turn: Word64, steps: nat)
    requires curr <= end && steps > 0
    ensures var size := SegmentSize(curr, end, turn) % WORD16;
            var d := LoadDescriptor(curr, size, Wrap(curr - addr) % WORD16);
            var rest := LoadLoop(addr, end, boundary, Wrap(curr + size), Wrap(turn + boundary), steps - 1);
            && LoadLoop(addr, end, boundary, curr, turn, steps) == Cons(d, rest)
            && forall before {:trigger before + [d]} :: before + ([d] + rest.pushed) == (before + [d]) + rest.pushed
  {
  }

  lemma LoadLast(addr: Word64, end: Word64, boundary: nat, curr: Word64, turn: Word64, steps: nat)
    requires curr > end || steps == 0
    ensures LoadLoop(addr, end, boundary, curr, turn, steps) == Pieces([], curr > end)
  {
  }

  method ParseStoreScalar(inst: Inst, rs1: Word64, rs2: Word64, boundary: nat, misalignError: bool,
                          desc0: seq<StoreDescriptor>, steps: nat)
    returns (r: ParseResult, desc: seq<StoreDescriptor>)
    requires boundary < 256
    ensures r == IllegalInstruction <==> !inst.isStore
    ensures r == MisalignedAddress <==>
            inst.isStore && misalignError && Start(inst, rs1) % Extent(inst) != 0
    ensures r in {IllegalInstruction, MisalignedAddress} ==> desc == desc0
    ensures r in {Parsed, NoResult} ==>
              var made := StoredBy(inst, rs1, rs2, boundary, steps);
              desc == desc0 + made.pushed && (r == Parsed <==> made.ended)
  {
    hide LowBytes, StoreLoop, BlockEnd, SegmentSize, Address, AccessSize, Extent, Start;
    SizeAndStart(inst, rs1);
    desc := desc0;
    if !inst.isStore {
      return IllegalInstruction, desc0;
    }
    var addr := Address(rs1, inst.imm);
    var size := AccessSize(inst.funct3);
    if misalignError && addr % size != 0 {
      return MisalignedAddress, desc0;
    }
    var data := LowBytes(rs2, size);
    if boundary == 0 {
      return Parsed, desc0 + [StoreDescriptor(addr, data)];
    }
    var endAddr := Wrap(addr + size - 1);
    var currAddr: Word64 := addr;
    var turn: Word64 := BlockEnd(addr, boundary);
    var i := 0;
    ghost var whole := StoreSplit(addr, data, boundary, steps);
    while currAddr <= endAddr && i < steps
      invariant i <= steps
      invariant var rest := StoreLoop(addr, endAddr, boundary, data, currAddr, turn, steps - i);
                desc + rest.pushed == desc0 + whole.pushed && rest.ended == whole.ended
      decreases steps - i
    {
      var bytes := SegmentSize(currAddr, endAddr, turn);
      var offset := Wrap(currAddr - addr);
      StoreRound(addr, endAddr, boundary, data, currAddr, turn, steps - i);
      if offset + bytes > |data| {
        // the source would copy from outside its buffer
        return NoResult, desc;
      }
      desc := desc + [StoreDescriptor(currAddr, data[offset..offset + bytes])];
      currAddr := Wrap(currAddr + bytes);
      turn := Wrap(turn + boundary);
      i := i + 1;
    }
    StoreLast(addr, endAddr, boundary, data, currAddr, turn, steps - i);
    r := if currAddr > endAddr then Parsed else NoResult;
  }

  lemma StoreRound(addr: Word64, end: Word64, boundary: nat, data: seq<byte>, curr: Word64, turn: Word64, steps: nat)
    requires curr <= end && steps > 0
    ensures var size, offset := SegmentSize(curr, end, turn), Wrap(curr - addr);
            var all := StoreLoop(addr, end, boundary, data, curr, turn, steps);
            if offset + size > |data| then all == Pieces([], false)
            else
              var d := StoreDescriptor(curr, data[offset..offset + size]);
              var rest := StoreLoop(addr, end, boundary, data, Wrap(curr + size), Wrap(turn + boundary), steps - 1);
              && all == Cons(d, rest)
              && forall before {:trigger before + [d]} :: before + ([d] + rest.pushed) == (before + [d]) + rest.pushed
  {
  }

  lemma StoreLast(addr: Word64, end: Word64, boundary: nat, data: seq<byte>, curr: Word64, turn: Word64, steps: nat)
    requires curr > end || steps == 0
    ensures StoreLoop(addr, end, boundary, data, curr, turn, steps) == Pieces([], curr > end)
  {
  }

  // ----- The round trip -----

  /** The accesses that can be split, or need not be. */
  predicate Reaches(addr: Word64, size: nat, boundary: nat)
    requires size > 0
  {
    if boundary == 0 then addr + size <= WORD64 else Fits(addr, size, boundary)
  }

  /** How many blocks the access touches; without a boundary, memory is one block. */
  function Blocks(addr: Word64, size: nat, boundary: nat): int
    requires size > 0
  {
    if boundary == 0 then 1 else (addr + size - 1) / boundary - addr / boundary + 1
  }

  lemma LoadedTiles(inst: Inst, rs1: Word64, boundary: nat, steps: nat)
    requires boundary < 256 && steps >= Extent(inst)
    requires Reaches(Start(inst, rs1), Extent(inst), boundary)
    ensures var addr, size, made := Start(inst, rs1), Extent(inst), LoadedBy(inst, rs1, boundary, steps);
            made.ended && Tiles(made.pushed, addr, addr, addr + size, boundary)
            && |made.pushed| == Blocks(addr, size, boundary)
  {
    hide Tiles, Address, AccessSize, LoadSplit, Extent, Start;
    SizeAndStart(inst, rs1);
    var addr, size := Address(rs1, inst.imm), AccessSize(inst.funct3);
    if boundary == 0 {
      Whole(addr, size);
    } else {
      LoadFits(addr, size, boundary, steps);
      TileCount(LoadSplit(addr, size, boundary, steps).pushed, addr, addr, addr + size, boundary);
    }
  }

  lemma StoredTiles(inst: Inst, rs1: Word64, rs2: Word64, boundary: nat, steps: nat)
    requires boundary < 256 && steps >= Extent(inst)
    requires Reaches(Start(inst, rs1), Extent(inst), boundary)
    ensures var addr, size, made := Start(inst, rs1), Extent(inst),
                                    StoredBy(inst, rs1, rs2, boundary, steps);
            && made.ended && StoreTiles(made.pushed, addr, LowBytes(rs2, size), boundary)
            && |made.pushed| == Blocks(addr, size, boundary)
  {
    hide Tiles, Slices, Address, AccessSize, StoreSplit, LowBytes, AsLoads, Extent, Start;
    SizeAndStart(inst, rs1);
    var addr, size := Address(rs1, inst.imm), AccessSize(inst.funct3);
    var data := LowBytes(rs2, size);
    if boundary == 0 {
      Unsplit(addr, data);
    } else {
      StoreFits(addr, data, boundary, steps);
      var ds := StoreSplit(addr, data, boundary, steps).pushed;
      AsManyLoads(ds, addr);
      TileCount(AsLoads(ds, addr), addr, addr, addr + size, boundary);
    }
  }

  /**
   The bytes that a parsed load reads are the 2^(funct3 mod 4) bytes from the sum of register and offset on, each in one
   piece, which puts it where it belongs in the register.
   */
  lemma LoadedBytes(inst: Inst, rs1: Word64, boundary: nat, steps: nat, p: nat)
    requires boundary < 256 && steps >= Extent(inst)
    requires Reaches(Start(inst, rs1), Extent(inst), boundary)
    ensures var addr, ds := Start(inst, rs1), LoadedBy(inst, rs1, boundary, steps).pushed;
            && (addr <= p < addr + Extent(inst) <==>
                exists i :: 0 <= i < |ds| && InLoad(ds[i], p))
            && (forall i, j :: 0 <= i < |ds| && 0 <= j < |ds| && InLoad(ds[i], p) && InLoad(ds[j], p) ==> i == j)
            && (forall i :: 0 <= i < |ds| && InLoad(ds[i], p) ==> ds[i].regOffset + (p - ds[i].addr) == p - addr)
  {
    hide Tiles, LoadedBy, Extent, Start, Reaches;
    LoadedTiles(inst, rs1, boundary, steps);
    var addr := Start(inst, rs1);
    var ds, stop := LoadedBy(inst, rs1, boundary, steps).pushed, addr + Extent(inst);
    if addr <= p < stop {
      var i := CoversOnce(ds, addr, addr, stop, boundary, p);
      assert InLoad(ds[i], p);
    }
    forall i | 0 <= i < |ds| ensures addr <= ds[i].addr && ds[i].addr + ds[i].size <= stop
                                     && ds[i].regOffset == ds[i].addr - addr {
      TileInside(ds, addr, addr, stop, boundary, i);
    }
  }

  predicate InLoad(d: LoadDescriptor, p: nat) { d.addr <= p < d.addr + d.size }

  lemma {:induction false} TileInside(ds: seq<LoadDescriptor>, addr: nat, curr: nat, stop: nat, boundary: nat, i: nat)
    requires Tiles(ds, addr, curr, stop, boundary) && i < |ds|
    ensures curr <= ds[i].addr && ds[i].addr + ds[i].size <= stop && ds[i].regOffset == ds[i].addr - addr
    decreases |ds|
  {
    if i > 0 {
      TileInside(ds[1..], addr, curr + ds[0].size, stop, boundary, i - 1);
    }
  }

  /** The memory after a parsed store: those bytes hold the low bytes of the register, and no others have changed. */
  lemma StoredBytes(inst: Inst, rs1: Word64, rs2: Word64, boundary: nat, steps: nat, mem: Memory, p: nat)
    requires boundary < 256 && steps >= Extent(inst)
    requires Reaches(Start(inst, rs1), Extent(inst), boundary)
    ensures var addr, size := Start(inst, rs1), Extent(inst);
            Written(mem, StoredBy(inst, rs1, rs2, boundary, steps).pushed)(p) ==
            if addr <= p < addr + size then LowBytes(rs2, size)[p - addr] else mem(p)
  {
    hide Tiles, Slices, StoredBy, LowBytes, Extent, Start, Reaches, Written;
    StoredTiles(inst, rs1, rs2, boundary, steps);
    var addr, size := Start(inst, rs1), Extent(inst);
    WrittenTiles(mem, StoredBy(inst, rs1, rs2, boundary, steps).pushed, addr, LowBytes(rs2, size), addr, boundary, p);
  }

  /** Carried out in turn, the stores and the loads put `data` into the register, and into memory only at `addr`. */
  ghost predicate Restores(mem: Memory, ds: seq<StoreDescriptor>, ls: seq<LoadDescriptor>, reg: seq<byte>, addr: nat,
                           data: seq<byte>) {
    && Gathered(Written(mem, ds), ls, reg) == data
    && forall p: nat :: !(addr <= p < addr + |data|) ==> Written(mem, ds)(p) == mem(p)
  }

  lemma SameAccess(store: Inst, load: Inst, rs1: Word64)
    requires store.imm == load.imm && store.funct3 % 4 == load.funct3 % 4
    ensures Start(store, rs1) == Start(load, rs1) && Extent(store) == Extent(load)
  {
    hide Pow;
  }

  lemma Whole(addr: Word64, size: nat)
    requires size > 0
    ensures Tiles([LoadDescriptor(addr, size, 0)], addr, addr, addr + size, 0)
  {
    assert [LoadDescriptor(addr, size, 0)][1..] == [];
  }

  lemma {:induction false} AsManyLoads(ds: seq<StoreDescriptor>, addr: Word64)
    ensures |AsLoads(ds, addr)| == |ds|
  {
    if ds != [] {
      AsManyLoads(ds[1..], addr);
    }
  }

  /**
   The round trip through both parsers. A store and a load of the same address and size, split at any two boundaries or
   not at all, both succeed with one descriptor for every block touched; and carrying out the stores and then the loads
   puts into the register exactly the low bytes that were stored, leaving the rest of memory alone.
   */
  lemma ParsedRoundTrip(store: Inst, load: Inst, rs1: Word64, rs2: Word64, b1: nat, b2: nat, steps: nat, mem: Memory,
                        reg: seq<byte>)
    requires store.imm == load.imm && store.funct3 % 4 == load.funct3 % 4 && |reg| == Extent(load)
    requires b1 < 256 && b2 < 256 && steps >= |reg|
    requires Reaches(Start(store, rs1), |reg|, b1) && Reaches(Start(store, rs1), |reg|, b2)
    ensures var addr, size := Start(store, rs1), |reg|;
            var stored, loaded := StoredBy(store, rs1, rs2, b1, steps), LoadedBy(load, rs1, b2, steps);
            && stored.ended && |stored.pushed| == Blocks(addr, size, b1)
            && loaded.ended && |loaded.pushed| == Blocks(addr, size, b2)
            && Restores(mem, stored.pushed, loaded.pushed, reg, addr, LowBytes(rs2, size))
            && Pow(256, size) > 0 && ByteValue(LowBytes(rs2, size)) == rs2 % Pow(256, size)
  {
    hide Tiles, Slices, Address, AccessSize, StoredBy, LoadedBy, LowBytes, Written, Gathered, StoreTiles, ByteValue,
      Pow, Extent, Start, Reaches;
    var addr, size := Start(store, rs1), |reg|;
    SameAccess(store, load, rs1);
    StoredTiles(store, rs1, rs2, b1, steps);
    LoadedTiles(load, rs1, b2, steps);
    LowBytesValue(rs2, size);
    StoreThenLoad(mem, addr, LowBytes(rs2, size), StoredBy(store, rs1, rs2, b1, steps).pushed, b1,
                  LoadedBy(load, rs1, b2, steps).pushed, b2, reg);
  }
}
