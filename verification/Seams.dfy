/** Whether a descriptor of a transfer can cross from one registered range of the
    shared region into the next. */
module Seams {
  import opened Arithmetic
  import opened Sequences
  import opened CopyEngine
  import opened Registration
  import opened Layout
  import opened Addressing
  import opened Transfers
  import opened RoundTrip

  function Total(r: Region): nat { r.numBlocks * r.rowStride }

  /** Byte `x` of a row lies inside a cell, not at its edge. */
  ghost predicate InsideCell(r: Region, x: nat) {
    exists c: Cell :: InRowOf(r, c) && InRow(r, c) < x < InRow(r, c) + r.pages[c.tensor]
  }

  predicate InRowOf(r: Region, c: Cell) {
    c.chunk == 0 && c.rank < r.world && c.tensor < |r.pages| && c.sub < r.blocksPerChunk
  }

  /** Every seam falls between two cells of its row. */
  ghost predicate SeamsAtEdges(r: Region, chunk: nat)
    requires r.rowStride > 0
  {
    forall i: nat :: Seam(chunk, Total(r), i) ==> !InsideCell(r, i * chunk % r.rowStride)
  }

  ghost predicate CellStraddles(r: Region, chunk: nat, c: Cell)
    requires chunk > 0 && r.Valid() && CellIn(r, c)
  {
    CellInRegion(r, c);
    Straddles(chunk, Total(r), CellStart(r, c) - r.base, r.pages[c.tensor])
  }

  /** A seam inside a cell is inside it in its row. */
  lemma StraddledEdge(r: Region, chunk: nat, c: Cell, i: nat)
    requires r.Valid() && CellIn(r, c) && chunk > 0 && Seam(chunk, Total(r), i)
    requires CellStart(r, c) - r.base < i * chunk < CellStart(r, c) - r.base + r.pages[c.tensor]
    ensures InsideCell(r, i * chunk % r.rowStride)
  {
    CellInRow(r, c);
    var x, home := i * chunk - c.chunk * r.rowStride, c.(chunk := 0);
    SameInRow(r, c, 0);
    hide InRow, Region.Valid;
    Split(c.chunk, x, r.rowStride);
    assert InRowOf(r, home);
  }

  /** A seam inside a cell of its row crosses the cell of that row. */
  lemma EdgeStraddled(r: Region, chunk: nat, i: nat) returns (c: Cell)
    requires r.Valid() && chunk > 0 && Seam(chunk, Total(r), i) && InsideCell(r, i * chunk % r.rowStride)
    ensures CellIn(r, c) && CellStraddles(r, chunk, c)
  {
    var at := i * chunk;
    DivMod(at, r.rowStride);
    RowBelow(at, r.rowStride, r.numBlocks);
    hide InsideCell, InRow, CellStart, CellStraddles;
    c := EdgeCell(r, at / r.rowStride, at % r.rowStride);
    CellAt(r, c);
    SeamStraddles(r, chunk, c, i);
  }

  lemma EdgeCell(r: Region, row: nat, x: nat) returns (c: Cell)
    requires InsideCell(r, x) && row < r.numBlocks
    ensures CellIn(r, c) && c.chunk == row && InRow(r, c) < x < InRow(r, c) + r.pages[c.tensor]
  {
    hide InRow;
    var home: Cell :| InRowOf(r, home) && InRow(r, home) < x < InRow(r, home) + r.pages[home.tensor];
    c := home.(chunk := row);
    SameInRow(r, home, row);
  }

  lemma CellAt(r: Region, c: Cell)
    requires c.tensor < |r.pages|
    ensures CellStart(r, c) - r.base == c.chunk * r.rowStride + InRow(r, c)
  {}

  lemma SeamStraddles(r: Region, chunk: nat, c: Cell, i: nat)
    requires r.Valid() && CellIn(r, c) && chunk > 0 && Seam(chunk, Total(r), i)
    requires CellStart(r, c) - r.base < i * chunk < CellStart(r, c) - r.base + r.pages[c.tensor]
    ensures CellStraddles(r, chunk, c)
  {
    hide CellStart, Total;
    CellInRegion(r, c);
  }

  lemma RowBelow(at: nat, rowStride: nat, rows: nat)
    requires rowStride > 0 && at < rows * rowStride
    ensures at / rowStride < rows
  {
    DivMod(at, rowStride);
    if at / rowStride >= rows { MulMonotone(rows, at / rowStride, rowStride); }
  }

  lemma SameInRow(r: Region, c: Cell, row: nat)
    requires c.tensor < |r.pages|
    ensures InRow(r, c.(chunk := row)) == InRow(r, c)
  {
    hide Before;
  }

  /** No cell crosses a seam exactly when every seam falls between two cells of
      its row. */
  lemma CellsNeverStraddleIff(r: Region, chunk: nat)
    requires r.Valid() && chunk > 0
    ensures (forall c :: CellIn(r, c) ==> !CellStraddles(r, chunk, c)) <==> SeamsAtEdges(r, chunk)
  {
    if SeamsAtEdges(r, chunk) {
      forall c | CellIn(r, c) ensures !CellStraddles(r, chunk, c) {
        if CellStraddles(r, chunk, c) {
          var at := CellStart(r, c) - r.base;
          var i: nat :| Seam(chunk, Total(r), i) && at < i * chunk < at + r.pages[c.tensor];
          StraddledEdge(r, chunk, c, i);
        }
      }
    } else {
      var i: nat :| Seam(chunk, Total(r), i) && InsideCell(r, i * chunk % r.rowStride);
      var c := EdgeStraddled(r, chunk, i);
    }
  }

  /** A chunk of whole rows puts every seam at the start of a row. */
  lemma WholeRowsAtEdges(r: Region, chunk: nat)
    requires r.Valid() && chunk > 0 && (chunk % r.rowStride == 0 || Total(r) <= chunk)
    ensures SeamsAtEdges(r, chunk)
  {
    forall i: nat | Seam(chunk, Total(r), i) ensures !InsideCell(r, i * chunk % r.rowStride) {
      SeamIsARowStart(chunk, r.rowStride, r.numBlocks, i);
      DivMod(i * chunk, r.rowStride);
    }
  }

  /** Cells of one size that divides everything are never crossed, whole rows in
      a chunk or not. */
  lemma UniformCellsAtEdges(r: Region, chunk: nat, page: nat)
    requires r.Valid() && chunk > 0 && page > 0 && forall t :: 0 <= t < |r.pages| ==> r.pages[t] == page
    requires r.cpuPageSize % page == 0 && r.rowStride % page == 0 && chunk % page == 0
    ensures SeamsAtEdges(r, chunk)
  {
    forall i: nat | Seam(chunk, Total(r), i) ensures !InsideCell(r, i * chunk % r.rowStride) {
      var x := i * chunk % r.rowStride;
      SeamMultiple(i, chunk, r.rowStride, page);
      forall c: Cell | InRowOf(r, c) ensures !(InRow(r, c) < x < InRow(r, c) + page) {
        CellMultiple(r, c, page);
        if InRow(r, c) < x {
          hide InRow;
          MultiplesApart(InRow(r, c), x, page);
        }
      }
    }
  }

  lemma SeamMultiple(i: nat, chunk: nat, rowStride: nat, page: nat)
    requires page > 0 && rowStride > 0 && rowStride % page == 0 && chunk % page == 0
    ensures i * chunk % rowStride % page == 0
  {
    WholePages(i, chunk, page);
    var row := i * chunk / rowStride;
    DivMod(i * chunk, rowStride);
    WholePages(row, rowStride, page);
    DifferenceOfMultiples(i * chunk, row * rowStride, page);
  }

  lemma DifferenceOfMultiples(a: int, b: int, page: nat)
    requires page > 0 && a % page == 0 && b % page == 0
    ensures (a - b) % page == 0 && (a + b) % page == 0
  {
    var x := MultipleOf(a, page);
    var y := MultipleOf(b, page);
    MultiplesAdd(x, y, page);
    MultiplesAdd(x, -y, page);
    assert -y * page == -(y * page);
  }

  lemma MultipleOf(a: int, page: nat) returns (x: int)
    requires page > 0 && a % page == 0
    ensures a == x * page
  {
    x := a / page;
    DivMod(a, page);
  }

  lemma MultiplesAdd(x: int, y: int, page: nat)
    requires page > 0
    ensures (x * page + y * page) % page == 0
  {
    MulAdd(x, y, page);
    WholeQuotient(x + y, page);
  }

  lemma {:induction false} BeforeMultiple(pages: seq<nat>, t: nat, page: nat)
    requires page > 0 && t <= |pages| && forall u :: 0 <= u < |pages| ==> pages[u] == page
    ensures Before(pages, t) % page == 0
  {
    if t == 0 {
    } else {
      BeforeMultiple(pages, t - 1, page);
      WholePages(1, page, page);
      DifferenceOfMultiples(Before(pages, t - 1), page, page);
    }
  }

  lemma CellMultiple(r: Region, c: Cell, page: nat)
    requires InRowOf(r, c) && page > 0 && forall t :: 0 <= t < |r.pages| ==> r.pages[t] == page
    requires r.cpuPageSize % page == 0
    ensures InRow(r, c) % page == 0
  {
    BeforeMultiple(r.pages, c.tensor, page);
    WholePages(c.rank, r.cpuPageSize, page);
    WholePages(r.blocksPerChunk, Before(r.pages, c.tensor), page);
    WholePages(c.sub, page, page);
    DifferenceOfMultiples(c.rank * r.cpuPageSize, r.blocksPerChunk * Before(r.pages, c.tensor), page);
    DifferenceOfMultiples(Part(r, c.rank, c.tensor), c.sub * page, page);
  }

  // ---- the code's own sizes ----

  /** Rows of three 4 KiB pages, as many as one worker's page of one layer is wide. */
  function NarrowRows(): Region { Region(0, 6000000, 12288, 12288, 1, [12288], 1) }

  lemma NarrowRowsValid()
    ensures NarrowRows().Valid() && Total(NarrowRows()) == 73728000000
  {
    assert Before([12288], 0) == 0 && Before([12288], 1) == 12288;
  }

  lemma NarrowInRow()
    ensures InRow(NarrowRows(), Cell(0, 0, 5592405, 0)) == 0
  {
    assert Before(NarrowRows().pages, 0) == 0;
    assert Part(NarrowRows(), 0, 0) == 0;
  }

  lemma NarrowCell()
    ensures CellStart(NarrowRows(), Cell(0, 0, 5592405, 0)) == 68719472640
  {
    hide CellStart, InRow;
    var r, c := NarrowRows(), Cell(0, 0, 5592405, 0);
    NarrowInRow();
    CellAt(r, c);
    Product(c.chunk, r.rowStride);
  }

  lemma Product(a: nat, b: nat)
    requires a == 5592405 && b == 12288
    ensures a * b == 68719472640
  {}

  lemma NarrowChunk()
    ensures ChunkSize(64, 12288) == 68719476736
  {
    assert 12288 % HUGE_PAGE != 0;
  }

  /** Rows that are not whole huge pages are not looked at: with these and the
      default chunk of 64 GiB, the page in row 5592405 begins 4096 bytes before
      the first seam. */
  lemma PageStraddles(w: Worker, p: Page)
    requires w.region == NarrowRows() && w.rank == 0
    requires w.gpu == [Tensor(73728000000, 12288, 12288)] && w.gpuBlocks == 1
    requires p.ref.tensor == 0 && p.ref.size == 12288 && p.gpuBlock == 0 && p.chunk == 5592405 && p.sub == 0
    ensures w.Valid() && PageIn(w, p)
    ensures Straddles(ChunkSize(64, w.region.rowStride), Total(w.region), CpuAddress(w, p), p.ref.size)
  {
    NarrowRowsValid();
    NarrowCell();
    NarrowChunk();
    hide ChunkSize, CellStart, Region.Valid;
    assert Seam(68719476736, 73728000000, 1);
  }

  /** A region sized by the spec divides as the cells need it. */
  lemma SizedRegion(base: nat, workerBytesPerBlock: nat, copies: nat, blocksPerChunk: nat, alignment: nat,
                    cpuBytes: nat, pages: seq<nat>)
    requires workerBytesPerBlock > 0 && copies > 0 && blocksPerChunk > 0 && alignment > 0
    requires Before(pages, |pages|) <= workerBytesPerBlock
    ensures var s := SizingOf(workerBytesPerBlock, copies, blocksPerChunk, alignment, cpuBytes);
            var r := Region(base, s.numBlocks, s.rowStride, s.cpuPageSize, copies, pages, blocksPerChunk);
            r.Valid() && Total(r) <= cpuBytes && r.rowStride % alignment == 0
  {
    SizingFits(workerBytesPerBlock, copies, blocksPerChunk, alignment, cpuBytes);
    MulMonotone(Before(pages, |pages|), workerBytesPerBlock, blocksPerChunk);
    PositiveProduct(workerBytesPerBlock, blocksPerChunk);
    PositiveProduct(copies, workerBytesPerBlock * blocksPerChunk);
  }

  /** The bytes at `at` lie in one of the registered ranges. */
  ghost predicate InOneRange(ranges: seq<Range>, at: int, size: nat) {
    exists i :: 0 <= i < |ranges| && ranges[i].Has(at) && ranges[i].Has(at + size - 1)
  }

  /** A pinned region whose seams fall between cells has each part of a cell in
      one of its ranges. */
  lemma SpanInOneRange(pinned: PinnedRegion, r: Region, c: Cell, chunk: nat, at: int, size: nat)
    requires pinned.Valid() && pinned.isPinned && chunk > 0 && ChunkStarts(pinned.registeredChunks, chunk)
    requires r.Valid() && CellIn(r, c) && size > 0 && pinned.total == Total(r) && SeamsAtEdges(r, chunk)
    requires CellStart(r, c) <= at && at + size <= CellStart(r, c) + r.pages[c.tensor]
    ensures InOneRange(pinned.registeredChunks, at - r.base, size)
  {
    CellInRegion(r, c);
    CellsNeverStraddleIff(r, chunk);
    assert !CellStraddles(r, chunk, c);
    assert !Straddles(chunk, pinned.total, at - r.base, size) by {
      hide CellStart;
    }
    hide CellStart, Straddles;
    StraddlesIff(pinned.registeredChunks, chunk, pinned.total, at - r.base, size);
  }

  lemma PageInOneRange(pinned: PinnedRegion, w: Worker, p: Page, chunk: nat)
    requires pinned.Valid() && pinned.isPinned && chunk > 0 && ChunkStarts(pinned.registeredChunks, chunk)
    requires w.Valid() && PageIn(w, p) && p.ref.size > 0
    requires pinned.total == Total(w.region) && SeamsAtEdges(w.region, chunk)
    ensures InOneRange(pinned.registeredChunks, CpuAddress(w, p) - w.region.base, p.ref.size)
  {
    SpanInOneRange(pinned, w.region, CellOf(w, p), chunk, CpuAddress(w, p), p.ref.size);
  }

  /** With rows of whole huge pages the chunk computed for them puts every seam at
      the start of a row. */
  lemma HugeRowsAtEdges(r: Region, chunkGb: int)
    requires r.Valid() && chunkGb >= 1 && r.rowStride % HUGE_PAGE == 0 && r.rowStride < PlainChunk(chunkGb)
    ensures SeamsAtEdges(r, ChunkSize(chunkGb, r.rowStride))
  {
    AlignedChunk(chunkGb, r.rowStride);
    hide ChunkSize, SeamsAtEdges, PlainChunk, Region.Valid;
    WholeRowsAtEdges(r, ChunkSize(chunkGb, r.rowStride));
  }

  lemma CopiesInOneRange(pinned: PinnedRegion, w: Worker, pages: seq<Page>, chunk: nat, c: Copy)
    requires pinned.Valid() && pinned.isPinned && chunk > 0 && ChunkStarts(pinned.registeredChunks, chunk)
    requires w.Valid() && PagesIn(w, pages) && c.size > 0
    requires pinned.total == Total(w.region) && SeamsAtEdges(w.region, chunk)
    ensures c in StoreCopies(w, pages) ==> InOneRange(pinned.registeredChunks, c.dst - w.region.base, c.size)
    ensures c in LoadCopies(w, pages) ==> InOneRange(pinned.registeredChunks, c.src - w.region.base, c.size)
  {
    hide PinnedRegion.Valid, Worker.Valid, SeamsAtEdges, InOneRange, CpuAddress, GpuAddress, ChunkStarts;
    if c in StoreCopies(w, pages) {
      var i :| 0 <= i < |pages| && StoreCopies(w, pages)[i] == c;
      PageInOneRange(pinned, w, pages[i], chunk);
    }
    if c in LoadCopies(w, pages) {
      var i :| 0 <= i < |pages| && LoadCopies(w, pages)[i] == c;
      PageInOneRange(pinned, w, pages[i], chunk);
    }
  }

  /** Once a region is pinned in chunks whose seams fall between its cells, every
      store and every load of every transfer uses one registered range. */
  lemma TransfersInOneRange(pinned: PinnedRegion, w: Worker, chunk: nat, groups: seq<Group>, refs: seq<seq<Ref>>,
                            gpu: seq<nat>, cpu: seq<nat>, c: Copy)
    requires pinned.Valid() && pinned.isPinned && chunk > 0 && ChunkStarts(pinned.registeredChunks, chunk)
    requires w.Valid() && pinned.total == Total(w.region) && SeamsAtEdges(w.region, chunk) && c.size > 0
    requires Listed(groups, refs, gpu, cpu, w.region.blocksPerChunk) && forall g :: 0 <= g < |refs| ==> AllIn(w, refs[g])
    requires PagesIn(w, PagesOf(groups, refs, gpu, cpu, w.region.blocksPerChunk))
    ensures Fits(groups, refs, GpuSide(w), CpuSide(w), gpu, cpu) && Fits(groups, refs, CpuSide(w), GpuSide(w), cpu, gpu)
    ensures c in AllOps(Direct, groups, refs, GpuSide(w), CpuSide(w), gpu, cpu) ==>
              InOneRange(pinned.registeredChunks, c.dst - w.region.base, c.size)
    ensures c in AllOps(Direct, groups, refs, CpuSide(w), GpuSide(w), cpu, gpu) ==>
              InOneRange(pinned.registeredChunks, c.src - w.region.base, c.size)
  {
    hide AllOps, PagesOf, PinnedRegion.Valid, SeamsAtEdges, InOneRange, StoreCopies, LoadCopies, Total, ChunkStarts;
    TransferCopies(w, groups, refs, gpu, cpu);
    CopiesInOneRange(pinned, w, PagesOf(groups, refs, gpu, cpu, w.region.blocksPerChunk), chunk, c);
  }
}
