/** How the shared region is divided: rows for chunks, in each row an area for
    each worker, in each area a cell for each tensor and sub-block. */
module Layout {
  import opened Arithmetic
  import opened Sequences
  import opened Registration

  /** `CPUOffloadingSpec`: the sizes everything else is built on. */
  datatype Sizing = Sizing(cpuPageSize: nat, rowStride: nat, numBlocks: nat)

  function SizingOf(workerBytesPerBlock: nat, copies: nat, blocksPerChunk: nat, alignment: nat, cpuBytes: nat): Sizing
    requires workerBytesPerBlock > 0 && copies > 0 && blocksPerChunk > 0 && alignment > 0
  {
    var chunkBytes := workerBytesPerBlock * copies * blocksPerChunk;
    PositiveProduct(workerBytesPerBlock * copies, blocksPerChunk);
    PositiveProduct(workerBytesPerBlock, copies);
    var rowStride := RoundUp(chunkBytes, alignment);
    Sizing(chunkBytes / copies, rowStride, cpuBytes / rowStride)
  }

  lemma PositiveProduct(a: nat, b: nat)
    ensures a > 0 && b > 0 ==> a * b > 0
  {}

  /** Each copy gets the bytes of its blocks, a row holds all copies, rows are
      aligned, and there are as many rows as the granted memory holds. */
  lemma SizingFits(workerBytesPerBlock: nat, copies: nat, blocksPerChunk: nat, alignment: nat, cpuBytes: nat)
    requires workerBytesPerBlock > 0 && copies > 0 && blocksPerChunk > 0 && alignment > 0
    ensures var s := SizingOf(workerBytesPerBlock, copies, blocksPerChunk, alignment, cpuBytes);
            && s.cpuPageSize == workerBytesPerBlock * blocksPerChunk
            && copies * s.cpuPageSize <= s.rowStride && s.rowStride % alignment == 0
            && s.rowStride < copies * s.cpuPageSize + alignment
            && s.numBlocks * s.rowStride <= cpuBytes < (s.numBlocks + 1) * s.rowStride
  {
    var chunkBytes, page := workerBytesPerBlock * copies * blocksPerChunk, workerBytesPerBlock * blocksPerChunk;
    Rearranged(workerBytesPerBlock, copies, blocksPerChunk);
    PositiveProduct(workerBytesPerBlock, copies);
    PositiveProduct(workerBytesPerBlock * copies, blocksPerChunk);
    WholeQuotient(page, copies);
    RowFits(chunkBytes, alignment, cpuBytes);
  }

  lemma Rearranged(a: nat, b: nat, c: nat)
    ensures a * b * c == (a * c) * b
  {}

  lemma RowFits(chunkBytes: nat, alignment: nat, cpuBytes: nat)
    requires chunkBytes > 0 && alignment > 0
    ensures var row := RoundUp(chunkBytes, alignment);
            && row % alignment == 0 && chunkBytes <= row < chunkBytes + alignment
            && cpuBytes / row * row <= cpuBytes < (cpuBytes / row + 1) * row
  {
    var rows := CeilDiv(chunkBytes, alignment);
    WholeQuotient(rows, alignment);
    MulAdd(rows - 1, 1, alignment);
    DivMod(cpuBytes, rows * alignment);
    MulAdd(cpuBytes / (rows * alignment), 1, rows * alignment);
  }

  /** `pages`: bytes of one block of each tensor, for one worker. */
  datatype Region = Region(base: nat, numBlocks: nat, rowStride: nat, cpuPageSize: nat, world: nat,
                           pages: seq<nat>, blocksPerChunk: nat) {
    ghost predicate Valid() {
      && blocksPerChunk > 0 && rowStride > 0
      && Before(pages, |pages|) * blocksPerChunk <= cpuPageSize
      && world * cpuPageSize <= rowStride
    }
  }

  /** The bytes of the tensors in front of the `t`-th. */
  function Before(pages: seq<nat>, t: nat): nat
    requires t <= |pages|
  {
    if t == 0 then 0 else Before(pages, t - 1) + pages[t - 1]
  }

  lemma {:induction false} BeforeMonotone(pages: seq<nat>, t: nat, u: nat)
    requires t < u <= |pages|
    ensures Before(pages, t) + pages[t] <= Before(pages, u)
  {
    if t < u - 1 {
      BeforeMonotone(pages, t, u - 1);
    }
  }

  /** A place for one block of one tensor of one worker. */
  datatype Cell = Cell(rank: nat, tensor: nat, chunk: nat, sub: nat)

  predicate CellIn(r: Region, c: Cell) {
    c.rank < r.world && c.tensor < |r.pages| && c.chunk < r.numBlocks && c.sub < r.blocksPerChunk
  }

  /** Where in a row the part of a tensor begins. */
  function Part(r: Region, rank: nat, tensor: nat): nat
    requires tensor < |r.pages|
  {
    rank * r.cpuPageSize + Before(r.pages, tensor) * r.blocksPerChunk
  }

  /** Where the cell begins inside its row. */
  function InRow(r: Region, c: Cell): nat
    requires c.tensor < |r.pages|
  {
    Part(r, c.rank, c.tensor) + c.sub * r.pages[c.tensor]
  }

  function CellStart(r: Region, c: Cell): nat
    requires c.tensor < |r.pages|
  {
    r.base + c.chunk * r.rowStride + InRow(r, c)
  }

  /** A cell lies in the part of its tensor, in the area of its worker, in one row. */
  lemma CellInRow(r: Region, c: Cell)
    requires r.Valid() && CellIn(r, c)
    ensures var part, size := Part(r, c.rank, c.tensor), r.pages[c.tensor] * r.blocksPerChunk;
            && part <= InRow(r, c) && InRow(r, c) + r.pages[c.tensor] <= part + size
            && c.rank * r.cpuPageSize <= part && part + size <= c.rank * r.cpuPageSize + r.cpuPageSize <= r.rowStride
  {
    hide Part, Before, Region.Valid;
    SubInPart(c.sub, r.blocksPerChunk, r.pages[c.tensor]);
    PartInArea(r, c.rank, c.tensor);
    AreaInRow(r, c.rank);
  }

  lemma PartInArea(r: Region, rank: nat, tensor: nat)
    requires r.Valid() && tensor < |r.pages|
    ensures rank * r.cpuPageSize <= Part(r, rank, tensor)
    ensures Part(r, rank, tensor) + r.pages[tensor] * r.blocksPerChunk <= rank * r.cpuPageSize + r.cpuPageSize
  {
    PartEnds(r.pages, tensor, |r.pages|, r.blocksPerChunk);
  }

  lemma SubInPart(sub: nat, blocksPerChunk: nat, page: nat)
    requires sub < blocksPerChunk
    ensures sub * page + page <= page * blocksPerChunk
  {
    MulMonotone(sub + 1, blocksPerChunk, page);
    MulAdd(sub, 1, page);
  }

  lemma PartEnds(pages: seq<nat>, t: nat, u: nat, blocksPerChunk: nat)
    requires t < u <= |pages|
    ensures Before(pages, t) * blocksPerChunk + pages[t] * blocksPerChunk <= Before(pages, u) * blocksPerChunk
  {
    BeforeMonotone(pages, t, u);
    ScaledSum(Before(pages, t), pages[t], Before(pages, u), blocksPerChunk);
  }

  lemma AreaInRow(r: Region, rank: nat)
    requires r.Valid() && rank < r.world
    ensures rank * r.cpuPageSize + r.cpuPageSize == (rank + 1) * r.cpuPageSize <= r.rowStride
  {
    MulAdd(rank, 1, r.cpuPageSize);
    MulMonotone(rank + 1, r.world, r.cpuPageSize);
  }

  /** Cells are inside the region. */
  lemma CellInRegion(r: Region, c: Cell)
    requires r.Valid() && CellIn(r, c)
    ensures r.base <= CellStart(r, c)
    ensures CellStart(r, c) + r.pages[c.tensor] <= r.base + r.numBlocks * r.rowStride
    ensures InOneRow(r.rowStride, r.numBlocks, CellStart(r, c) - r.base, r.pages[c.tensor])
  {
    CellInRow(r, c);
    MulAdd(c.chunk, 1, r.rowStride);
    MulMonotone(c.chunk + 1, r.numBlocks, r.rowStride);
    assert c.chunk * r.rowStride <= CellStart(r, c) - r.base;
    assert CellStart(r, c) - r.base + r.pages[c.tensor] <= (c.chunk + 1) * r.rowStride;
  }

  predicate Disjoint(a: int, n: nat, b: int, m: nat) {
    a + n <= b || b + m <= a
  }

  /** Different cells have no byte in common: not across chunks, nor workers,
      nor tensors, nor sub-blocks. */
  lemma CellsDisjoint(r: Region, c: Cell, d: Cell)
    requires r.Valid() && CellIn(r, c) && CellIn(r, d) && c != d
    ensures Disjoint(CellStart(r, c), r.pages[c.tensor], CellStart(r, d), r.pages[d.tensor])
  {
    CellInRow(r, c);
    CellInRow(r, d);
    if c.chunk != d.chunk {
      OtherRow(c.chunk, d.chunk, r.rowStride);
    } else {
      CellsDisjointInRow(r, c, d);
    }
  }

  lemma CellsDisjointInRow(r: Region, c: Cell, d: Cell)
    requires r.Valid() && CellIn(r, c) && CellIn(r, d) && c != d && c.chunk == d.chunk
    ensures Disjoint(InRow(r, c), r.pages[c.tensor], InRow(r, d), r.pages[d.tensor])
  {
    CellInRow(r, c);
    CellInRow(r, d);
    if c.rank != d.rank {
      hide InRow, Part;
      OtherRow(c.rank, d.rank, r.cpuPageSize);
    } else if c.tensor != d.tensor {
      PartsApart(r, c.rank, c.tensor, d.tensor);
    } else {
      OtherRow(c.sub, d.sub, r.pages[c.tensor]);
    }
  }

  lemma PartsApart(r: Region, rank: nat, t: nat, u: nat)
    requires t < |r.pages| && u < |r.pages| && t != u
    ensures Disjoint(Part(r, rank, t), r.pages[t] * r.blocksPerChunk, Part(r, rank, u), r.pages[u] * r.blocksPerChunk)
  {
    if t < u {
      PartEnds(r.pages, t, u, r.blocksPerChunk);
    } else {
      PartEnds(r.pages, u, t, r.blocksPerChunk);
    }
  }

  lemma OtherRow(a: nat, b: nat, size: nat)
    requires a != b
    ensures a * size + size <= b * size || b * size + size <= a * size
  {
    MulAdd(a, 1, size);
    MulAdd(b, 1, size);
    if a < b { MulMonotone(a + 1, b, size); } else { MulMonotone(b + 1, a, size); }
  }

  /** `SharedOffloadRegion` of one worker, as it hands out its views. */
  class WorkerViews {
    const rank: nat
    const cpuPageSize: nat
    const areaEnd: nat
    const rowStride: nat
    var workerOffset: nat
    var canonicalOffset: nat
    var views: seq<nat>
    var canonicalViews: seq<nat>
    /** The widths of the views handed out so far. */
    ghost var widths: seq<nat>
    ghost var canonicalWidths: seq<nat>

    ghost predicate Valid()
      reads this
    {
      && areaEnd == (rank + 1) * cpuPageSize && |views| == |widths|
      && workerOffset == rank * cpuPageSize + Before(widths, |widths|) <= areaEnd
      && (forall t :: 0 <= t < |views| ==> views[t] == rank * cpuPageSize + Before(widths, t))
      && |canonicalViews| == |canonicalWidths|
      && canonicalOffset == Before(canonicalWidths, |canonicalWidths|) <= rowStride
      && (forall t :: 0 <= t < |canonicalViews| ==> canonicalViews[t] == Before(canonicalWidths, t))
    }

    constructor (rank: nat, cpuPageSize: nat, rowStride: nat)
      ensures Valid() && views == [] && widths == [] && canonicalViews == [] && canonicalWidths == []
      ensures this.rank == rank && this.cpuPageSize == cpuPageSize && this.rowStride == rowStride
    {
      MulAdd(rank, 1, cpuPageSize);
      this.rank, this.cpuPageSize, areaEnd, this.rowStride := rank, cpuPageSize, (rank + 1) * cpuPageSize, rowStride;
      workerOffset, views, widths := rank * cpuPageSize, [], [];
      canonicalOffset, canonicalViews, canonicalWidths := 0, [], [];
    }

    /** The next view begins where the last one ended; it is refused when it
        would leave the area of this worker. */
    method CreateNextWorkerView(tensorPageSize: nat) returns (offset: Option<nat>)
      requires Valid()
      modifies this`workerOffset, this`views, this`widths
      ensures Valid()
      ensures offset.Some? <==> Before(old(widths), |old(widths)|) + tensorPageSize <= cpuPageSize
      ensures offset.None? ==> views == old(views) && widths == old(widths)
      ensures offset.Some? ==> views == old(views) + [offset.value] && widths == old(widths) + [tensorPageSize]
    {
      MulAdd(rank, 1, cpuPageSize);
      var newOffset := workerOffset + tensorPageSize;
      if newOffset > areaEnd {
        return None;
      }
      offset := Some(workerOffset);
      BeforeAppend(widths, tensorPageSize);
      views, widths := views + [workerOffset], widths + [tensorPageSize];
      workerOffset := newOffset;
    }

    /** The shared views follow each other from the start of the row, the same
        on every worker; one that would leave the row is refused. */
    method CreateNextCanonicalView(tensorPageSize: nat) returns (offset: Option<nat>)
      requires Valid()
      modifies this`canonicalOffset, this`canonicalViews, this`canonicalWidths
      ensures Valid()
      ensures offset.Some? <==> Before(old(canonicalWidths), |old(canonicalWidths)|) + tensorPageSize <= rowStride
      ensures offset.None? ==> canonicalViews == old(canonicalViews) && canonicalWidths == old(canonicalWidths)
      ensures offset.Some? ==>
        && canonicalViews == old(canonicalViews) + [offset.value]
        && canonicalWidths == old(canonicalWidths) + [tensorPageSize]
    {
      var newOffset := canonicalOffset + tensorPageSize;
      if newOffset > rowStride {
        return None;
      }
      offset := Some(canonicalOffset);
      BeforeAppend(canonicalWidths, tensorPageSize);
      canonicalViews, canonicalWidths := canonicalViews + [canonicalOffset], canonicalWidths + [tensorPageSize];
      canonicalOffset := newOffset;
    }
  }

  lemma {:induction false} BeforeSame(pages: seq<nat>, more: seq<nat>, t: nat)
    requires t <= |pages|
    ensures Before(pages + more, t) == Before(pages, t)
  {
    if t > 0 {
      BeforeSame(pages, more, t - 1);
    }
  }

  lemma BeforeAppend(pages: seq<nat>, page: nat)
    ensures forall t: nat :: t <= |pages| ==> Before(pages + [page], t) == Before(pages, t)
    ensures Before(pages + [page], |pages| + 1) == Before(pages, |pages|) + page
  {
    forall t: nat | t <= |pages| ensures Before(pages + [page], t) == Before(pages, t) {
      BeforeSame(pages, [page], t);
    }
  }

  /** Views of whole chunks sit where the cells of their tensor begin. */
  lemma {:induction false} BeforeScaled(pages: seq<nat>, widths: seq<nat>, blocksPerChunk: nat, t: nat)
    requires |widths| == |pages| && t <= |pages|
    requires forall i :: 0 <= i < |pages| ==> widths[i] == pages[i] * blocksPerChunk
    ensures Before(widths, t) == Before(pages, t) * blocksPerChunk
  {
    if t > 0 {
      BeforeScaled(pages, widths, blocksPerChunk, t - 1);
      MulAdd(Before(pages, t - 1), pages[t - 1], blocksPerChunk);
    }
  }
}
