/** The descriptors of one transfer, in the direct or the canonical layout. */
module Transfers {
  import opened Arithmetic
  import opened Sequences
  import opened CopyEngine
  import opened Addressing
  import opened Canonical

  /** How a handler fills in the copies of a group: whole pages, or the fragments
      of the pages that ranks share. */
  datatype Fill = Direct | Shared(gpuToCpu: bool)

  /** The copies of one group. */
  function FilledOps(fill: Fill, refs: seq<Ref>, src: Side, dst: Side, srcBlocks: seq<nat>, dstBlocks: seq<nat>, n: nat,
                     srcSkip: nat, dstSkip: nat): seq<Copy>
    requires RefsIn(refs, src, dst) && Enough(srcBlocks, src, srcSkip, n) && Enough(dstBlocks, dst, dstSkip, n)
  {
    match fill
    case Direct => GroupOps(refs, src, dst, srcBlocks, dstBlocks, n, srcSkip, dstSkip)
    case Shared(gpuToCpu) => CanonicalGroupOps(refs, src, dst, srcBlocks, dstBlocks, n, srcSkip, dstSkip, gpuToCpu)
  }

  /** How many copies a block of the group takes at most. */
  function OpsPerBlock(fill: Fill, refs: seq<Ref>): nat {
    if fill.Direct? then |refs| else PlanSize(refs)
  }

  lemma FilledBound(fill: Fill, refs: seq<Ref>, src: Side, dst: Side, srcBlocks: seq<nat>, dstBlocks: seq<nat>, n: nat,
                    srcSkip: nat, dstSkip: nat)
    requires RefsIn(refs, src, dst) && Enough(srcBlocks, src, srcSkip, n) && Enough(dstBlocks, dst, dstSkip, n)
    ensures |FilledOps(fill, refs, src, dst, srcBlocks, dstBlocks, n, srcSkip, dstSkip)| <= n * OpsPerBlock(fill, refs)
  {
    if fill.Shared? {
      CanonicalGroupBound(refs, src, dst, srcBlocks, dstBlocks, n, srcSkip, dstSkip, fill.gpuToCpu);
    }
  }

  /** The blocks the last of the groups uses on one side. */
  function LastBlocks(groups: seq<Group>, side: Side, blocks: seq<nat>): (r: seq<nat>)
    requires groups != [] && side.blocksPerChunk > 0 && Used(groups, side.blocksPerChunk) <= |blocks|
    ensures var last := groups[|groups| - 1];
            last.size > 0 ==> Enough(r, side, last.index % side.blocksPerChunk, last.size)
  {
    blocks[Used(groups[..|groups| - 1], side.blocksPerChunk)..Used(groups, side.blocksPerChunk)]
  }

  predicate Fits(groups: seq<Group>, refs: seq<seq<Ref>>, src: Side, dst: Side, srcBlocks: seq<nat>,
                 dstBlocks: seq<nat>) {
    && |refs| == |groups| && src.blocksPerChunk > 0 && dst.blocksPerChunk > 0
    && (forall g :: 0 <= g < |refs| ==> RefsIn(refs[g], src, dst))
    && Used(groups, src.blocksPerChunk) <= |srcBlocks| && Used(groups, dst.blocksPerChunk) <= |dstBlocks|
  }

  /** The copies of the last of the groups. */
  function LastOps(fill: Fill, groups: seq<Group>, refs: seq<seq<Ref>>, src: Side, dst: Side, srcBlocks: seq<nat>,
                   dstBlocks: seq<nat>): seq<Copy>
    requires Fits(groups, refs, src, dst, srcBlocks, dstBlocks) && groups != []
  {
    var last := groups[|groups| - 1];
    if last.size == 0 then []
    else FilledOps(fill, refs[|refs| - 1], src, dst, LastBlocks(groups, src, srcBlocks),
                   LastBlocks(groups, dst, dstBlocks), last.size, last.index % src.blocksPerChunk,
                   last.index % dst.blocksPerChunk)
  }

  /** The copies of a whole transfer, group after group. */
  function AllOps(fill: Fill, groups: seq<Group>, refs: seq<seq<Ref>>, src: Side, dst: Side, srcBlocks: seq<nat>,
                  dstBlocks: seq<nat>): seq<Copy>
    requires Fits(groups, refs, src, dst, srcBlocks, dstBlocks)
  {
    if groups == [] then []
    else
      AllOps(fill, groups[..|groups| - 1], refs[..|refs| - 1], src, dst, srcBlocks, dstBlocks)
      + LastOps(fill, groups, refs, src, dst, srcBlocks, dstBlocks)
  }

  /** An upper bound on the descriptors, exact for the direct layout. */
  function MaxOps(fill: Fill, groups: seq<Group>, refs: seq<seq<Ref>>): nat
    requires |refs| == |groups|
  {
    if groups == [] then 0
    else
      MaxOps(fill, groups[..|groups| - 1], refs[..|refs| - 1])
      + groups[|groups| - 1].size * OpsPerBlock(fill, refs[|refs| - 1])
  }

  lemma MaxOpsNext(fill: Fill, groups: seq<Group>, refs: seq<seq<Ref>>, g: nat)
    requires |refs| == |groups| && g < |groups|
    ensures MaxOps(fill, groups[..g + 1], refs[..g + 1])
            == MaxOps(fill, groups[..g], refs[..g]) + groups[g].size * OpsPerBlock(fill, refs[g])
  {
    hide OpsPerBlock;
    assert groups[..g + 1][..g] == groups[..g] && refs[..g + 1][..g] == refs[..g];
  }

  lemma {:induction false} MaxOpsGrows(fill: Fill, groups: seq<Group>, refs: seq<seq<Ref>>, g: nat)
    requires |refs| == |groups| && g <= |groups|
    ensures MaxOps(fill, groups[..g], refs[..g]) <= MaxOps(fill, groups, refs)
    decreases |groups| - g
  {
    hide OpsPerBlock, MaxOps;
    if g == |groups| {
      assert groups[..g] == groups && refs[..g] == refs;
    } else {
      MaxOpsNext(fill, groups, refs, g);
      MaxOpsGrows(fill, groups, refs, g + 1);
    }
  }

  lemma {:induction false} UsedSoFar(groups: seq<Group>, b: nat, g: nat)
    requires b > 0 && g < |groups|
    ensures Used(groups[..g + 1], b) == Used(groups[..g], b) + Taken(groups[g], b)
    ensures groups[g].size == 0 ==> Taken(groups[g], b) == 0
    ensures Used(groups[..g + 1], b) <= Used(groups, b)
    decreases |groups| - g
  {
    assert groups[..g + 1][..g] == groups[..g];
    if g + 1 == |groups| {
      assert groups[..g + 1] == groups;
    } else {
      UsedSoFar(groups, b, g + 1);
    }
  }

  /** One group of the transfer; `groups` ends with it. */
  method FillGroup(fill: Fill, groups: seq<Group>, refs: seq<seq<Ref>>, src: Side, dst: Side, srcBlocks: seq<nat>,
                   dstBlocks: seq<nat>, srcs: array<nat>, dsts: array<nat>, sizes: array<nat>, opIdx: nat)
    returns (end: nat)
    requires Fits(groups, refs, src, dst, srcBlocks, dstBlocks) && groups != [] && groups[|groups| - 1].size > 0
    requires srcs != dsts && srcs != sizes && dsts != sizes && srcs.Length == dsts.Length == sizes.Length
    requires opIdx + groups[|groups| - 1].size * OpsPerBlock(fill, refs[|refs| - 1]) <= srcs.Length
    modifies srcs, dsts, sizes
    ensures opIdx <= end <= opIdx + groups[|groups| - 1].size * OpsPerBlock(fill, refs[|refs| - 1])
    ensures Descriptors(srcs, dsts, sizes, end)
            == old(Descriptors(srcs, dsts, sizes, opIdx)) + LastOps(fill, groups, refs, src, dst, srcBlocks, dstBlocks)
  {
    hide Descriptors, GroupOps, CanonicalGroupOps, RefsIn, Enough;
    var last, use := groups[|groups| - 1], refs[|refs| - 1];
    var srcPart, dstPart := LastBlocks(groups, src, srcBlocks), LastBlocks(groups, dst, dstBlocks);
    var srcSkip, dstSkip := last.index % src.blocksPerChunk, last.index % dst.blocksPerChunk;
    FilledBound(fill, use, src, dst, srcPart, dstPart, last.size, srcSkip, dstSkip);
    match fill {
      case Direct =>
        end := FillDirectOps(use, src, dst, srcPart, dstPart, last.size, srcSkip, dstSkip, srcs, dsts, sizes, opIdx);
      case Shared(gpuToCpu) =>
        end := FillCanonicalOps(use, src, dst, srcPart, dstPart, last.size, srcSkip, dstSkip, gpuToCpu, srcs, dsts,
            sizes, opIdx);
    }
  }

  /** The descriptors of a transfer, or `None` when the block lists do not have
      the length the groups call for. */
  method TransferOps(fill: Fill, groups: seq<Group>, refs: seq<seq<Ref>>, src: Side, dst: Side, srcBlocks: seq<nat>,
                     dstBlocks: seq<nat>) returns (r: Option<seq<Copy>>)
    requires |refs| == |groups| && src.blocksPerChunk > 0 && dst.blocksPerChunk > 0
    requires forall g :: 0 <= g < |refs| ==> RefsIn(refs[g], src, dst)
    ensures r.Some? <==>
            Used(groups, src.blocksPerChunk) == |srcBlocks| && Used(groups, dst.blocksPerChunk) == |dstBlocks|
    ensures r.Some? ==> r.value == AllOps(fill, groups, refs, src, dst, srcBlocks, dstBlocks)
  {
    hide Descriptors, RefsIn, MaxOps, OpsPerBlock, Used, Taken, LastOps;
    var capacity := Estimate(fill, groups, refs);
    var srcs, dsts, sizes := new nat[capacity], new nat[capacity], new nat[capacity];
    var srcOffset, dstOffset, opIdx := 0, 0, 0;
    NoOps(fill, groups[..0], refs[..0], src, dst);
    for g := 0 to |groups|
      invariant srcOffset == Used(groups[..g], src.blocksPerChunk) <= |srcBlocks|
      invariant dstOffset == Used(groups[..g], dst.blocksPerChunk) <= |dstBlocks|
      invariant opIdx <= MaxOps(fill, groups[..g], refs[..g]) <= capacity
      invariant Descriptors(srcs, dsts, sizes, opIdx)
        == AllOps(fill, groups[..g], refs[..g], src, dst, srcBlocks, dstBlocks)
    {
      ghost var upTo, refsTo := groups[..g + 1], refs[..g + 1];
      assert upTo[..g] == groups[..g] && refsTo[..g] == refs[..g];
      MaxOpsNext(fill, groups, refs, g);
      MaxOpsGrows(fill, groups, refs, g + 1);
      UsedSoFar(groups, src.blocksPerChunk, g);
      UsedSoFar(groups, dst.blocksPerChunk, g);
      if groups[g].size > 0 {
        var dstEnd := dstOffset + Taken(groups[g], dst.blocksPerChunk);
        var srcEnd := srcOffset + Taken(groups[g], src.blocksPerChunk);
        if dstEnd > |dstBlocks| || srcEnd > |srcBlocks| {
          return None;
        }
        opIdx := FillGroup(fill, groups[..g + 1], refs[..g + 1], src, dst, srcBlocks, dstBlocks, srcs, dsts, sizes,
            opIdx);
        srcOffset, dstOffset := srcEnd, dstEnd;
      } else {
        NothingLast(fill, upTo, refsTo, src, dst, srcBlocks, dstBlocks);
      }
    }
    assert groups[..|groups|] == groups && refs[..|refs|] == refs;
    if srcOffset != |srcBlocks| || dstOffset != |dstBlocks| {
      return None;
    }
    var ops := ReadBack(srcs, dsts, sizes, opIdx);
    r := Some(ops);
  }

  lemma NoOps(fill: Fill, groups: seq<Group>, refs: seq<seq<Ref>>, src: Side, dst: Side)
    requires groups == [] && refs == [] && src.blocksPerChunk > 0 && dst.blocksPerChunk > 0
    ensures MaxOps(fill, groups, refs) == 0
    ensures Used(groups, src.blocksPerChunk) == 0 && Used(groups, dst.blocksPerChunk) == 0
  {}

  lemma NothingLast(fill: Fill, groups: seq<Group>, refs: seq<seq<Ref>>, src: Side, dst: Side, srcBlocks: seq<nat>,
                    dstBlocks: seq<nat>)
    requires groups != [] && |refs| == |groups| && groups[|groups| - 1].size == 0
    requires Fits(groups[..|groups| - 1], refs[..|refs| - 1], src, dst, srcBlocks, dstBlocks)
    requires RefsIn(refs[|refs| - 1], src, dst)
    ensures Fits(groups, refs, src, dst, srcBlocks, dstBlocks)
    ensures AllOps(fill, groups, refs, src, dst, srcBlocks, dstBlocks)
            == AllOps(fill, groups[..|groups| - 1], refs[..|refs| - 1], src, dst, srcBlocks, dstBlocks)
  {
    var before := groups[..|groups| - 1];
    assert forall g :: 0 <= g < |before| ==> refs[g] == refs[..|refs| - 1][g];
  }

  /** `_estimate_max_copy_ops`. */
  method Estimate(fill: Fill, groups: seq<Group>, refs: seq<seq<Ref>>) returns (capacity: nat)
    requires |refs| == |groups|
    ensures capacity == MaxOps(fill, groups, refs)
  {
    capacity := 0;
    for g := 0 to |groups|
      invariant capacity == MaxOps(fill, groups[..g], refs[..g])
    {
      MaxOpsNext(fill, groups, refs, g);
      capacity := capacity + groups[g].size * OpsPerBlock(fill, refs[g]);
    }
    assert groups[..|groups|] == groups && refs[..|refs|] == refs;
  }

  method ReadBack(srcs: array<nat>, dsts: array<nat>, sizes: array<nat>, n: nat) returns (ops: seq<Copy>)
    requires n <= srcs.Length && n <= dsts.Length && n <= sizes.Length
    ensures ops == Descriptors(srcs, dsts, sizes, n)
  {
    ops := Descriptors(srcs, dsts, sizes, n);
  }
}
