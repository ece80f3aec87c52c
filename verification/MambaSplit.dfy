/** Where a prefill chunk of a model with recurrent state may end. */
module MambaSplit {
  import opened Arithmetic

  datatype Config = Config(blockSize: nat, useEagle: bool, maxTokens: nat, longPrefill: nat, partialHits: bool,
      hashBlock: nat) {
    ghost predicate Valid() { blockSize > 0 && hashBlock > 0 }

    /** The largest chunk a prefill is ever given. */
    function PrefillLimit(): (n: nat)
      ensures n <= maxTokens && (longPrefill > 0 ==> n <= longPrefill)
      ensures n == maxTokens || n == longPrefill > 0
    {
      if longPrefill > 0 && longPrefill < maxTokens then longPrefill else maxTokens
    }
  }

  /** `sharedPrefix`: where other requests with the same beginning branch off. */
  datatype Request = Request(prompt: nat, tokens: nat, sharedPrefix: nat) {
    function PrefillEnd(): int { if prompt > tokens - 1 then prompt else tokens - 1 }
  }

  function Floor(p: int, block: nat): (r: int)
    requires block > 0
    ensures r <= p < r + block && r % block == 0
  {
    DivMod(p, block);
    WholeQuotient(p / block, block);
    p / block * block
  }

  /** The last position whose state can be found again: the last whole block,
      or the one before it when EAGLE drops a block of every match. */
  function LastCachePosition(cfg: Config, r: Request): (p: int)
    requires cfg.Valid()
    ensures 0 <= p && p % cfg.blockSize == 0
    ensures !cfg.useEagle ==> p <= r.tokens < p + cfg.blockSize
    ensures cfg.useEagle ==> (p == 0 || p + cfg.blockSize <= r.tokens) && r.tokens < p + 2 * cfg.blockSize
  {
    var last := Floor(r.tokens, cfg.blockSize);
    if !cfg.useEagle then last
    else if last - cfg.blockSize > 0 then
      NeighbourMultiples(last, cfg.blockSize);
      last - cfg.blockSize
    else 0
  }

  /** The prompt's last hash boundary, or 0 when it is not wanted. */
  function TailBoundary(cfg: Config, r: Request): (t: int)
    requires cfg.Valid()
    ensures t != 0 ==> cfg.partialHits && t % cfg.hashBlock == 0 && LastCachePosition(cfg, r) < t < r.prompt
                       && r.prompt < t + cfg.hashBlock
  {
    var tail := if cfg.partialHits then Floor(r.prompt, cfg.hashBlock) else 0;
    if LastCachePosition(cfg, r) < tail < r.prompt then tail else 0
  }

  /** No stop at the tail means that there is no hash boundary to stop at, or
      that the prompt ends at one. */
  lemma NoTailMeans(cfg: Config, r: Request, h: int)
    requires cfg.Valid() && cfg.partialHits && r.prompt % cfg.hashBlock != 0 && TailBoundary(cfg, r) == 0
    requires h % cfg.hashBlock == 0 && h < r.prompt
    ensures h <= LastCachePosition(cfg, r)
  {
    var tail := Floor(r.prompt, cfg.hashBlock);
    if tail < h {
      MultiplesApart(tail, h, cfg.hashBlock);
    }
  }

  /** The end of the chunk before stops are looked at. */
  function AlignedEnd(cfg: Config, r: Request, start: nat, n: int): int
    requires cfg.Valid()
  {
    var end := start + n;
    if end < r.PrefillEnd() then
      var aligned := Floor(end, cfg.blockSize);
      if aligned > start || cfg.blockSize <= cfg.PrefillLimit() then aligned else end
    else end
  }

  function Stops(cfg: Config, r: Request, start: nat, end: int): seq<int>
    requires cfg.Valid()
  {
    [if start % cfg.blockSize != 0 then (start / cfg.blockSize + 1) * cfg.blockSize else 0,
     LastCachePosition(cfg, r),
     TailBoundary(cfg, r),
     if start < r.sharedPrefix < end then start + (r.sharedPrefix - start) / cfg.blockSize * cfg.blockSize else 0]
  }

  /** The first of the stops strictly inside the chunk, or its end. */
  function Earliest(stops: seq<int>, start: int, end: int): (r: int)
    ensures r == end || (r in stops && start < r < end)
    ensures forall s :: s in stops && start < s < end ==> r <= s
  {
    if stops == [] then end
    else
      var rest := Earliest(stops[..|stops| - 1], start, end);
      var s := stops[|stops| - 1];
      assert stops == stops[..|stops| - 1] + [s];
      if start < s < end && s < rest then s else rest
  }

  /** `_mamba_block_aligned_split`: how many of the `n` tokens offered are taken. */
  function Split(cfg: Config, r: Request, start: nat, n: int): int
    requires cfg.Valid()
  {
    if start >= r.PrefillEnd() then n
    else
      var end := AlignedEnd(cfg, r, start, n);
      var stop := Earliest(Stops(cfg, r, start, end), start, end);
      if stop - start > 0 then stop - start else 0
  }

  // ---- multiples of the block size ----

  lemma NextBoundary(start: nat, block: nat)
    requires block > 0
    ensures var next := (start / block + 1) * block; next % block == 0 && start < next <= start + block
    ensures forall p: int :: p % block == 0 && p > start ==> (start / block + 1) * block <= p
  {
    DivMod(start, block);
    MulAdd(start / block, 1, block);
    WholeQuotient(start / block + 1, block);
    WholeQuotient(start / block, block);
    forall p: int | p % block == 0 && p > start ensures (start / block + 1) * block <= p {
      MultiplesApart(start / block * block, p, block);
    }
  }

  /** From a block boundary, the junction stop is the block floor of the junction. */
  lemma JunctionFloor(start: nat, junction: nat, block: nat)
    requires block > 0 && start % block == 0 && start < junction
    ensures start + (junction - start) / block * block == Floor(junction, block)
  {
    DivMod(start, block);
    DivMod(junction - start, block);
    var q, d := start / block, (junction - start) / block;
    MulAdd(q, d, block);
    SplitUnique(q + d, (junction - start) % block, junction / block, junction % block, block);
    DivMod(junction, block);
  }

  // ---- what one chunk does ----

  /** A chunk takes at most what it is offered. */
  lemma SplitBounds(cfg: Config, r: Request, start: nat, n: int)
    requires cfg.Valid() && start < r.PrefillEnd()
    ensures 0 <= Split(cfg, r, start, n) && (n >= 0 ==> Split(cfg, r, start, n) <= n)
  {}

  /** Positions no chunk may run past: the last one whose state is cached, the
      tail boundary, and the block floor of a junction below the prefill end. */
  predicate Mandatory(cfg: Config, r: Request, p: int)
    requires cfg.Valid()
  {
    || p == LastCachePosition(cfg, r)
    || p == TailBoundary(cfg, r)
    || (p == Floor(r.sharedPrefix, cfg.blockSize) && r.sharedPrefix < r.PrefillEnd())
  }

  lemma NeverJumps(cfg: Config, r: Request, start: nat, n: int, p: int)
    requires cfg.Valid() && Mandatory(cfg, r, p) && start < p < r.PrefillEnd()
    ensures start + Split(cfg, r, start, n) <= p
  {
    var end := AlignedEnd(cfg, r, start, n);
    var stops := Stops(cfg, r, start, end);
    assert stops[1] in stops && stops[2] in stops;
    if p != LastCachePosition(cfg, r) && p != TailBoundary(cfg, r) {
      NeverJumpsJunction(cfg, r, start, n);
    }
  }

  lemma NeverJumpsJunction(cfg: Config, r: Request, start: nat, n: int)
    requires cfg.Valid() && r.sharedPrefix < r.PrefillEnd() && start < Floor(r.sharedPrefix, cfg.blockSize)
    ensures start + Split(cfg, r, start, n) <= Floor(r.sharedPrefix, cfg.blockSize)
  {
    var p := Floor(r.sharedPrefix, cfg.blockSize);
    var end := AlignedEnd(cfg, r, start, n);
    var stops := Stops(cfg, r, start, end);
    assert stops[0] in stops && stops[3] in stops;
    NextBoundary(start, cfg.blockSize);
    if start % cfg.blockSize == 0 {
      JunctionFloor(start, r.sharedPrefix, cfg.blockSize);
      if end <= r.sharedPrefix {
        EndBeforeJunction(cfg, r, start, n);
      }
    }
    hide LastCachePosition, TailBoundary, AlignedEnd, Floor;
  }

  lemma EndBeforeJunction(cfg: Config, r: Request, start: nat, n: int)
    requires cfg.Valid() && r.sharedPrefix < r.PrefillEnd() && start < Floor(r.sharedPrefix, cfg.blockSize)
    requires start % cfg.blockSize == 0 && AlignedEnd(cfg, r, start, n) <= r.sharedPrefix
    ensures AlignedEnd(cfg, r, start, n) <= Floor(r.sharedPrefix, cfg.blockSize)
  {
    var p, end := Floor(r.sharedPrefix, cfg.blockSize), AlignedEnd(cfg, r, start, n);
    MultiplesApart(start, p, cfg.blockSize);
    if end % cfg.blockSize == 0 {
      if p < end { MultiplesApart(p, end, cfg.blockSize); }
    } else {
      assert Floor(end, cfg.blockSize) <= start;
    }
  }

  /** When a block fits the prefill limit, a chunk that stops before the end of
      the prefill stops at a block boundary or at the tail boundary. */
  lemma EarlyEndsAreCacheable(cfg: Config, r: Request, start: nat, n: int)
    requires cfg.Valid() && start < r.PrefillEnd() && cfg.blockSize <= cfg.PrefillLimit()
    ensures var taken := Split(cfg, r, start, n);
            taken > 0 && start + taken < r.PrefillEnd() ==>
              (start + taken) % cfg.blockSize == 0 || start + taken == TailBoundary(cfg, r)
  {
    var block := cfg.blockSize;
    var end := AlignedEnd(cfg, r, start, n);
    var stops := Stops(cfg, r, start, end);
    var stop := Earliest(stops, start, end);
    assert stops[0] in stops;
    NextBoundary(start, block);
    if start < stop < end && stop == stops[3] != stops[0] {
      if start % block == 0 {
        JunctionFloor(start, r.sharedPrefix, block);
      } else {
        JunctionBeyondNext(start, r.sharedPrefix, block);
      }
    }
  }

  /** The end of the block that `start` is in the middle of. */
  predicate EndsBlock(block: nat, start: nat, at: int)
    requires block > 0
  {
    start % block != 0 && at % block == 0 && at < start + block
  }

  /** Whole blocks on, and less than a block before `limit`. */
  predicate BlocksOn(block: nat, start: nat, limit: int, at: int)
    requires block > 0
  {
    at <= limit < at + block && (at - start) % block == 0
  }

  /** A chunk takes all it is offered, unless it ends at a mandatory position, at
      the end of the block it starts in the middle of, the last whole block
      before a junction, or the last block boundary of an offer inside the
      prefill. */
  lemma StopsForAReason(cfg: Config, r: Request, start: nat, n: nat)
    requires cfg.Valid() && start < r.PrefillEnd() && 0 < Split(cfg, r, start, n) < n
    ensures var at := start + Split(cfg, r, start, n);
            || at == LastCachePosition(cfg, r) || at == TailBoundary(cfg, r)
            || EndsBlock(cfg.blockSize, start, at)
            || (start < r.sharedPrefix < start + n && BlocksOn(cfg.blockSize, start, r.sharedPrefix, at))
            || (start + n < r.PrefillEnd() && BlocksOn(cfg.blockSize, 0, start + n, at))
  {
    hide LastCachePosition, TailBoundary, Floor, EndsBlock, BlocksOn;
    BoundaryAhead(cfg.blockSize, start, r.sharedPrefix, n);
  }

  lemma BoundaryAhead(block: nat, start: nat, junction: nat, n: nat)
    requires block > 0
    ensures start % block != 0 ==> EndsBlock(block, start, (start / block + 1) * block)
    ensures start < junction ==> BlocksOn(block, start, junction, start + (junction - start) / block * block)
    ensures BlocksOn(block, 0, start + n, Floor(start + n, block))
  {
    NextBoundary(start, block);
    DivMod(start, block);
    MulAdd(start / block, 1, block);
    if start < junction {
      DivMod(junction - start, block);
      WholeQuotient((junction - start) / block, block);
    }
  }

  /** From the middle of a block, the junction stop is at least one block away. */
  lemma JunctionBeyondNext(start: nat, junction: nat, block: nat)
    requires block > 0 && start < junction && start < start + (junction - start) / block * block
    ensures start + block <= start + (junction - start) / block * block
  {
    MulMonotone(1, (junction - start) / block, block);
  }

  /** Nothing is taken exactly when nothing is offered, or the offer ends in the
      block it starts in although a whole block would fit the limit. */
  lemma NothingTakenIff(cfg: Config, r: Request, start: nat, n: nat)
    requires cfg.Valid() && start < r.PrefillEnd()
    ensures Split(cfg, r, start, n) == 0 <==>
            n == 0 || (start + n < r.PrefillEnd() && Floor(start + n, cfg.blockSize) <= start
                       && cfg.blockSize <= cfg.PrefillLimit())
  {}

  /** An offer of a block, or of all that is left, always makes progress. */
  lemma EnoughMakesProgress(cfg: Config, r: Request, start: nat, n: nat)
    requires cfg.Valid() && start < r.PrefillEnd()
    requires n >= cfg.blockSize || start + n >= r.PrefillEnd()
    ensures Split(cfg, r, start, n) > 0
  {
    NothingTakenIff(cfg, r, start, n);
  }

  // ---- the whole prefill ----

  /** Where the request stands after each of the offers. */
  function Position(cfg: Config, r: Request, start: nat, offers: seq<nat>, k: nat): (p: nat)
    requires cfg.Valid() && k <= |offers|
  {
    if k == 0 then start
    else
      var before := Position(cfg, r, start, offers, k - 1);
      if before < r.PrefillEnd() then
        SplitBounds(cfg, r, before, offers[k - 1]);
        before + Split(cfg, r, before, offers[k - 1])
      else before
  }

  /** Each offer is a block, or all that is left of the prefill. */
  ghost predicate Adequate(cfg: Config, r: Request, start: nat, offers: seq<nat>)
    requires cfg.Valid()
  {
    forall k :: 0 <= k < |offers| ==>
      offers[k] >= cfg.blockSize || Position(cfg, r, start, offers, k) + offers[k] >= r.PrefillEnd()
  }

  lemma {:induction false} RunAdvances(cfg: Config, r: Request, start: nat, offers: seq<nat>, k: nat)
    requires cfg.Valid() && Adequate(cfg, r, start, offers) && k <= |offers|
    ensures Position(cfg, r, start, offers, k) >= r.PrefillEnd() || Position(cfg, r, start, offers, k) >= start + k
  {
    if k > 0 {
      RunAdvances(cfg, r, start, offers, k - 1);
      hide Split;
      var before := Position(cfg, r, start, offers, k - 1);
      if before < r.PrefillEnd() {
        EnoughMakesProgress(cfg, r, before, offers[k - 1]);
      }
    }
  }

  /** A prefill that is offered enough ends. */
  lemma RunEnds(cfg: Config, r: Request, start: nat, offers: seq<nat>)
    requires cfg.Valid() && Adequate(cfg, r, start, offers) && start + |offers| >= r.PrefillEnd()
    ensures Position(cfg, r, start, offers, |offers|) >= r.PrefillEnd()
  {
    RunAdvances(cfg, r, start, offers, |offers|);
  }

  /** Whatever it is offered, a prefill that ends has stopped at every mandatory
      position above its start. */
  lemma {:induction false} RunVisits(cfg: Config, r: Request, start: nat, offers: seq<nat>, p: int, k: nat)
      returns (at: nat)
    requires cfg.Valid() && Mandatory(cfg, r, p) && start < p < r.PrefillEnd()
    requires k <= |offers| && Position(cfg, r, start, offers, k) >= p
    ensures at <= k && Position(cfg, r, start, offers, at) == p
  {
    var before := if k == 0 then start else Position(cfg, r, start, offers, k - 1);
    if k > 0 && before >= p {
      at := RunVisits(cfg, r, start, offers, p, k - 1);
    } else {
      at := k;
      NeverJumps(cfg, r, before, if k == 0 then 0 else offers[k - 1], p);
    }
  }
}
