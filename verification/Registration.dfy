/** Pinning the shared region: which ranges are registered with the driver, and
    whether a copy can cross from one into the next. */
module Registration {
  import opened Arithmetic
  import opened Sequences

  const MIB := 1024 * 1024
  const GIB := 1024 * 1024 * 1024
  const HUGE_PAGE := 2 * MIB

  /** A registered range, by its offset in the region. */
  datatype Range = Range(start: nat, size: nat) {
    predicate Has(x: int) { start <= x < start + size }
  }

  /** The size asked for, between 64 MiB and 512 GiB, in whole huge pages. */
  function PlainChunk(chunkGb: int): (r: nat)
    ensures 64 * MIB <= r <= 512 * GIB && r % HUGE_PAGE == 0
  {
    var capped := if chunkGb < 512 then chunkGb * GIB else 512 * GIB;
    var clamped := if capped > 64 * MIB then capped else 64 * MIB;
    DivMod(clamped, HUGE_PAGE);
    WholeQuotient(clamped / HUGE_PAGE, HUGE_PAGE);
    clamped / HUGE_PAGE * HUGE_PAGE
  }

  /** In bytes: the size asked for, at least 64 MiB and at most 512 GiB. */
  lemma PlainChunkIs(chunkGb: int)
    ensures PlainChunk(chunkGb)
            == if chunkGb < 1 then 67108864 else if chunkGb <= 512 then chunkGb * 1073741824 else 549755813888
  {
    var asked := if chunkGb < 1 then 67108864 else if chunkGb <= 512 then chunkGb * 1073741824 else 549755813888;
    assert asked % HUGE_PAGE == 0;
    DivMod(asked, HUGE_PAGE);
  }

  /** ... cut down to whole rows where rows are whole huge pages, by less than
      a row, and always in whole huge pages. */
  function ChunkSize(chunkGb: int, rowStride: nat): (r: nat)
    ensures 64 * MIB <= r <= PlainChunk(chunkGb) <= 512 * GIB && r % HUGE_PAGE == 0
    ensures r < PlainChunk(chunkGb) ==> rowStride > 0 && r % rowStride == 0 && PlainChunk(chunkGb) < r + rowStride
  {
    var plain := PlainChunk(chunkGb);
    if rowStride > 0 && plain > rowStride && rowStride % HUGE_PAGE == 0 then
      var aligned := plain / rowStride * rowStride;
      DivMod(plain, rowStride);
      WholeQuotient(plain / rowStride, rowStride);
      WholePages(plain / rowStride, rowStride, HUGE_PAGE);
      if aligned >= 64 * MIB then aligned else plain
    else plain
  }

  lemma WholePages(n: nat, size: nat, page: nat)
    requires page > 0 && size % page == 0
    ensures n * size % page == 0
  {
    DivMod(size, page);
    MulAssoc(n, size / page, page);
    WholeQuotient(n * (size / page), page);
  }

  /** The ranges follow each other without a gap, from 0 to `total`. */
  ghost predicate Tiles(ranges: seq<Range>, total: nat) {
    && (forall i :: 0 <= i < |ranges| ==> ranges[i].size > 0)
    && (ranges == [] ==> total == 0)
    && (ranges != [] ==> ranges[0].start == 0 && ranges[|ranges| - 1].start + ranges[|ranges| - 1].size == total)
    && (forall i :: 0 <= i < |ranges| - 1 ==> ranges[i + 1].start == ranges[i].start + ranges[i].size)
  }

  ghost predicate ChunkStarts(ranges: seq<Range>, chunk: nat) {
    forall i :: 0 <= i < |ranges| ==> ranges[i].start == i * chunk && ranges[i].size <= chunk
  }

  /** No byte is registered twice, and none is left out. */
  lemma {:induction false} TilesCoverOnce(ranges: seq<Range>, total: nat, x: nat)
    requires Tiles(ranges, total)
    ensures x < total <==> exists i :: 0 <= i < |ranges| && ranges[i].Has(x)
    ensures forall i, j :: 0 <= i < j < |ranges| && ranges[i].Has(x) ==> !ranges[j].Has(x)
  {
    if ranges == [] {
    } else {
      var front, last := ranges[..|ranges| - 1], ranges[|ranges| - 1];
      assert ranges == front + [last];
      FrontTiles(ranges, total);
      TilesCoverOnce(front, last.start, x);
      hide Tiles;
      if x < last.start {
        var i :| 0 <= i < |front| && front[i].Has(x);
        assert ranges[i].Has(x);
      } else if x < total {
        assert ranges[|ranges| - 1].Has(x);
      }
    }
  }

  lemma FrontTiles(ranges: seq<Range>, total: nat)
    requires Tiles(ranges, total) && ranges != []
    ensures Tiles(ranges[..|ranges| - 1], ranges[|ranges| - 1].start)
    ensures ranges[|ranges| - 1].start + ranges[|ranges| - 1].size == total
  {
    var front, n := ranges[..|ranges| - 1], |ranges|;
    if front != [] {
      assert ranges[n - 2 + 1].start == ranges[n - 2].start + ranges[n - 2].size;
    }
  }

  /** What the driver has registered. It may refuse any call. */
  class HostRegistry {
    var live: set<Range>

    constructor ()
      ensures live == {}
    {
      live := {};
    }

    method Register(r: Range) returns (ok: bool)
      modifies this
      ensures live == if ok then old(live) + {r} else old(live)
    {
      ok := *;
      if ok {
        live := live + {r};
      }
    }

    method Unregister(start: nat) returns (ok: bool)
      modifies this
      ensures live == if ok then set r | r in old(live) && r.start != start else old(live)
    {
      ok := *;
      if ok {
        live := set r | r in live && r.start != start;
      }
    }
  }

  class PinnedRegion {
    const total: nat
    const driver: HostRegistry
    var registeredChunks: seq<Range>
    var isPinned: bool

    /** What is registered of this region is what the region remembers. */
    ghost predicate Valid()
      reads this, driver
    {
      && driver.live == Elements(registeredChunks)
      && if isPinned then Tiles(registeredChunks, total) else registeredChunks == []
    }

    constructor (total: nat, driver: HostRegistry)
      requires driver.live == {}
      ensures Valid() && !isPinned && this.total == total && this.driver == driver
    {
      this.total, this.driver := total, driver;
      registeredChunks, isPinned := [], false;
    }

    /** All of the region is registered, or nothing remains registered unless
        the driver refused to undo a registration (`stuck`). */
    method Pin(chunk: nat) returns (stuck: bool)
      requires Valid() && !isPinned && chunk > 0
      modifies this, driver
      ensures isPinned ==> !stuck
      ensures !stuck ==> Valid()
      ensures isPinned ==> ChunkStarts(registeredChunks, chunk)
      ensures !isPinned ==> registeredChunks == [] && (driver.live == {} <==> !stuck)
    {
      hide Tiles, ChunkStarts, Distinct;
      var registered: seq<Range> := [];
      var offset := 0;
      NoRanges(chunk);
      while offset < total
        invariant Tiles(registered, if offset < total then offset else total) && (offset > 0 ==> registered != [])
        invariant driver.live == Elements(registered) && Distinct(registered)
        invariant !isPinned && registeredChunks == []
        invariant offset == |registered| * chunk && ChunkStarts(registered, chunk)
        decreases total - offset
      {
        var size := if chunk < total - offset then chunk else total - offset;
        var r := Range(offset, size);
        AddRange(registered, offset, r);
        AddChunk(registered, r, chunk);
        var ok := driver.Register(r);
        if !ok {
          stuck := UnregisterAll(registered);
          return;
        }
        MulAdd(|registered|, 1, chunk);
        registered := registered + [r];
        offset := offset + chunk;
      }
      registeredChunks, isPinned := registered, true;
      stuck := false;
    }

    /** Undoes registrations, the latest first. */
    method UnregisterAll(ranges: seq<Range>) returns (stuck: bool)
      requires driver.live == Elements(ranges) && forall i, j :: 0 <= i < j < |ranges| ==>
          ranges[i].start != ranges[j].start
      modifies driver
      ensures driver.live <= Elements(ranges) && (driver.live == {} <==> !stuck)
    {
      stuck := false;
      var i := |ranges|;
      ghost var left: set<Range> := {};
      while i > 0
        invariant 0 <= i <= |ranges|
        invariant driver.live == Elements(ranges[..i]) + left
        invariant forall r :: r in left ==> exists j :: i <= j < |ranges| && ranges[j] == r
        invariant left == {} <==> !stuck
      {
        i := i - 1;
        assert ranges[..i + 1] == ranges[..i] + [ranges[i]];
        var ok := driver.Unregister(ranges[i].start);
        if !ok {
          stuck, left := true, left + {ranges[i]};
        }
      }
    }

    /** After cleaning up nothing is registered, unless the driver refused. */
    method Cleanup() returns (stuck: bool)
      requires Valid()
      modifies this, driver
      ensures registeredChunks == [] && !isPinned && (driver.live == {} <==> !stuck)
    {
      stuck := false;
      if isPinned {
        TilesApart(registeredChunks, total);
        stuck := UnregisterAll(registeredChunks);
      }
      registeredChunks, isPinned := [], false;
    }
  }

  lemma NoRanges(chunk: nat)
    ensures Tiles([], 0) && ChunkStarts([], chunk) && Distinct<Range>([])
  {}

  lemma AddChunk(ranges: seq<Range>, r: Range, chunk: nat)
    requires ChunkStarts(ranges, chunk) && r.start == |ranges| * chunk && r.size <= chunk
    ensures ChunkStarts(ranges + [r], chunk)
  {}

  lemma AddRange(ranges: seq<Range>, end: nat, r: Range)
    requires Tiles(ranges, end) && r.start == end && r.size > 0 && (ranges == [] ==> end == 0)
    ensures Tiles(ranges + [r], end + r.size)
    ensures Elements(ranges + [r]) == Elements(ranges) + {r}
    ensures forall i, j :: 0 <= i < j < |ranges| ==> ranges[i].start != ranges[j].start
    ensures Distinct(ranges) ==> Distinct(ranges + [r])
  {
    TilesApart(ranges, end);
  }

  lemma {:induction false} TilesOrder(ranges: seq<Range>, end: nat, i: nat, j: nat)
    requires Tiles(ranges, end) && i < j < |ranges|
    ensures ranges[i].start + ranges[i].size <= ranges[j].start
    decreases j - i
  {
    assert ranges[j - 1 + 1].start == ranges[j - 1].start + ranges[j - 1].size;
    if i < j - 1 {
      TilesOrder(ranges, end, i, j - 1);
    }
  }

  lemma TilesApart(ranges: seq<Range>, end: nat)
    requires Tiles(ranges, end)
    ensures forall i, j :: 0 <= i < j < |ranges| ==> ranges[i].start < ranges[j].start
    ensures forall i :: 0 <= i < |ranges| ==> ranges[i].start < end
  {
    forall i, j | 0 <= i < j < |ranges| ensures ranges[i].start < ranges[j].start {
      TilesOrder(ranges, end, i, j);
    }
  }

  // ---- copies that cross a seam ----

  /** A copy of `size` bytes at `at` that uses two registered ranges. */
  ghost predicate Straddles(chunk: nat, total: nat, at: nat, size: nat)
    requires chunk > 0
  {
    exists i: nat :: Seam(chunk, total, i) && at < i * chunk < at + size
  }

  predicate Seam(chunk: nat, total: nat, i: nat) {
    0 < i * chunk < total
  }

  /** A copy inside the region uses two ranges exactly when it straddles. */
  lemma StraddlesIff(ranges: seq<Range>, chunk: nat, total: nat, at: nat, size: nat)
    requires chunk > 0 && Tiles(ranges, total) && ChunkStarts(ranges, chunk)
    requires size > 0 && at + size <= total
    ensures Straddles(chunk, total, at, size) <==>
            !exists i :: 0 <= i < |ranges| && ranges[i].Has(at) && ranges[i].Has(at + size - 1)
  {
    TilesCoverOnce(ranges, total, at);
    var i :| 0 <= i < |ranges| && ranges[i].Has(at);
    var end := ranges[i].start + ranges[i].size;
    if end < total {
      assert i + 1 < |ranges| && ranges[i + 1].start == (i + 1) * chunk == end;
      assert at + size > end ==> Seam(chunk, total, i + 1);
    }
    TilesApart(ranges, total);
    forall k: nat | Seam(chunk, total, k) && at < k * chunk < at + size ensures at + size > end {
      if k <= i { MulMonotone(k, i, chunk); }
      MulMonotone(i + 1, k, chunk);
      assert i + 1 < |ranges| ==> ranges[i + 1].start == end == (i + 1) * chunk;
      assert i + 1 == |ranges| ==> end == total <= i * chunk + chunk;
      MulAdd(i, 1, chunk);
    }
  }

  /** The bytes at `at` lie in one row. */
  predicate InOneRow(rowStride: nat, rows: nat, at: nat, size: nat)
    requires rowStride > 0
  {
    exists row: nat :: row < rows && row * rowStride <= at && at + size <= (row + 1) * rowStride
  }

  lemma AlignedNeverStraddles(chunk: nat, rowStride: nat, rows: nat, at: nat, size: nat)
    requires chunk > 0 && rowStride > 0 && InOneRow(rowStride, rows, at, size)
    requires chunk % rowStride == 0 || rows * rowStride <= chunk
    ensures !Straddles(chunk, rows * rowStride, at, size)
  {
    var row: nat :| row < rows && row * rowStride <= at && at + size <= (row + 1) * rowStride;
    forall i: nat | Seam(chunk, rows * rowStride, i) ensures !(at < i * chunk < at + size) {
      SeamIsARowStart(chunk, rowStride, rows, i);
      RowsApart(rowStride, row, i * chunk / rowStride);
    }
  }

  lemma SeamIsARowStart(chunk: nat, rowStride: nat, rows: nat, i: nat)
    requires chunk > 0 && rowStride > 0 && Seam(chunk, rows * rowStride, i)
    requires chunk % rowStride == 0 || rows * rowStride <= chunk
    ensures i * chunk == i * chunk / rowStride * rowStride
  {
    if rows * rowStride <= chunk {
      MulMonotone(1, i, chunk);
      assert false;
    } else {
      var q := chunk / rowStride;
      DivMod(chunk, rowStride);
      assert i * chunk == (i * q) * rowStride by { MulAssoc(i, q, rowStride); }
      WholeQuotient(i * q, rowStride);
    }
  }

  /** Rows of whole huge pages, with a chunk of at least 1 GiB asked for: the
      chunk is made of whole rows, unless one row is already larger. */
  lemma AlignedChunk(chunkGb: int, rowStride: nat)
    requires chunkGb >= 1 && 0 < rowStride < PlainChunk(chunkGb) && rowStride % HUGE_PAGE == 0
    ensures ChunkSize(chunkGb, rowStride) % rowStride == 0
  {
    var plain := PlainChunk(chunkGb);
    var aligned := plain / rowStride * rowStride;
    DivMod(plain, rowStride);
    assert plain >= GIB;
    assert plain / rowStride >= 1;
    MulMonotone(1, plain / rowStride, rowStride);
    assert aligned > plain - rowStride && aligned >= rowStride;
    assert aligned >= 64 * MIB;
    WholeQuotient(plain / rowStride, rowStride);
  }
}
