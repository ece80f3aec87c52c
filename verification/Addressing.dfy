/** The copies of one transfer between GPU pages and cells of the shared region. */
module Addressing {
  import opened Arithmetic
  import opened Sequences
  import opened CopyEngine
  import opened Layout

  /** A byte tensor of two dimensions; `width` bytes are used of each row. */
  datatype Tensor = Tensor(base: nat, stride: nat, width: nat)

  /** The address of a sub-block. */
  function SubAddress(t: Tensor, blocksPerChunk: nat, block: nat, sub: nat): nat
    requires blocksPerChunk > 0
  {
    t.base + block * t.stride + sub * (t.width / blocksPerChunk)
  }

  /** The address of the `n`-th sub-block of the listed blocks. */
  function NthSubBlock(t: Tensor, blocksPerChunk: nat, blockIds: seq<nat>, n: nat): nat
    requires blocksPerChunk > 0 && n < |blockIds| * blocksPerChunk
  {
    QuotientBelow(n, |blockIds|, blocksPerChunk);
    SubAddress(t, blocksPerChunk, blockIds[n / blocksPerChunk], n % blocksPerChunk)
  }

  lemma QuotientBelow(n: nat, blocks: nat, b: nat)
    requires b > 0 && n < blocks * b
    ensures n / b < blocks
  {
    DivMod(n, b);
    if n / b >= blocks { MulMonotone(blocks, n / b, b); }
  }

  lemma NthIs(t: Tensor, blocksPerChunk: nat, blockIds: seq<nat>, b: nat, s: nat)
    requires b < |blockIds| && s < blocksPerChunk
    ensures b * blocksPerChunk + s < |blockIds| * blocksPerChunk
    ensures NthSubBlock(t, blocksPerChunk, blockIds, b * blocksPerChunk + s) == SubAddress(t, blocksPerChunk,
        blockIds[b], s)
  {
    MulAdd(b, 1, blocksPerChunk);
    MulMonotone(b + 1, |blockIds|, blocksPerChunk);
    Split(b, s, blocksPerChunk);
  }

  /** With one sub-block in a block its address is that of the block. */
  lemma NthWhole(t: Tensor, blockIds: seq<nat>, i: nat)
    requires i < |blockIds|
    ensures NthSubBlock(t, 1, blockIds, i) == t.base + blockIds[i] * t.stride
  {
    NthIs(t, 1, blockIds, i, 0);
  }

  /** All sub-block addresses, block after block. */
  method Flatten(blockIds: seq<nat>, blocksPerChunk: nat, t: Tensor) returns (flat: seq<nat>)
    requires blocksPerChunk > 0
    ensures |flat| == |blockIds| * blocksPerChunk
    ensures forall j :: 0 <= j < |flat| ==> flat[j] == NthSubBlock(t, blocksPerChunk, blockIds, j)
  {
    hide SubAddress, NthSubBlock;
    flat := [];
    for b := 0 to |blockIds|
      invariant |flat| == b * blocksPerChunk <= |blockIds| * blocksPerChunk
      invariant forall j :: 0 <= j < |flat| ==> flat[j] == NthSubBlock(t, blocksPerChunk, blockIds, j)
    {
      MulAdd(b, 1, blocksPerChunk);
      MulMonotone(b + 1, |blockIds|, blocksPerChunk);
      for s := 0 to blocksPerChunk
        invariant |flat| == b * blocksPerChunk + s <= |blockIds| * blocksPerChunk
        invariant forall j :: 0 <= j < |flat| ==> flat[j] == NthSubBlock(t, blocksPerChunk, blockIds, j)
      {
        NthIs(t, blocksPerChunk, blockIds, b, s);
        flat := flat + [SubAddress(t, blocksPerChunk, blockIds[b], s)];
      }
    }
  }

  /** `compute_sub_block_ptrs`: `count` addresses from sub-block `skip` on. */
  method ComputeSubBlockPtrs(blockIds: seq<nat>, blocksPerChunk: nat, t: Tensor, skip: nat,
                             output: array<nat>, from: nat, count: nat)
    requires skip < blocksPerChunk && from + count <= output.Length
    requires skip + count <= |blockIds| * blocksPerChunk
    modifies output
    ensures forall k :: 0 <= k < output.Length ==>
              output[k] == if from <= k < from + count then NthSubBlock(t, blocksPerChunk, blockIds, skip + k - from)
                           else old(output[k])
  {
    hide SubAddress, NthSubBlock;
    if blocksPerChunk == 1 {
      for i := 0 to count
        invariant forall k :: 0 <= k < output.Length ==>
                    output[k] == if from <= k < from + i then NthSubBlock(t, 1, blockIds, k - from) else old(output[k])
      {
        NthWhole(t, blockIds, i);
        output[from + i] := t.base + blockIds[i] * t.stride;
      }
    } else {
      var flat := Flatten(blockIds, blocksPerChunk, t);
      for i := 0 to count
        invariant forall k :: 0 <= k < output.Length ==>
                    output[k] == if from <= k < from + i then flat[skip + k - from] else old(output[k])
      {
        output[from + i] := flat[skip + i];
      }
    }
  }

  // ---- one transfer ----

  /** `count` pieces of `size` bytes, each a stride further on both sides: on a
      rank's own page, and on the page all ranks share. */
  datatype CopyRun = CopyRun(localOffset: nat, canonicalOffset: nat, size: nat, count: nat, localStride: nat,
                             canonicalStride: nat)

  /** How the page of a rank maps into the shared one, and whose turn it is to
      write that: `numWriters` ranks hold the same bytes. */
  datatype Mapping = Mapping(pageSize: nat, runs: seq<CopyRun>, numWriters: nat, writerIndex: nat)

  /** One layer's use of a tensor: it copies `size` bytes of each page, or what
      the mapping says where ranks share their pages. */
  datatype Ref = Ref(tensor: nat, size: nat, mapping: Mapping)

  /** The blocks of one cache group in a transfer: `index` is the logical
      number of the first. */
  datatype Group = Group(size: nat, index: nat)

  /** How many listed blocks the groups take on a side. */
  function Used(groups: seq<Group>, blocksPerChunk: nat): nat
    requires blocksPerChunk > 0
  {
    if groups == [] then 0
    else
      var last := groups[|groups| - 1];
      Used(groups[..|groups| - 1], blocksPerChunk) + Taken(last, blocksPerChunk)
  }

  /** The chunks a group touches; the first may be entered in its middle. */
  function Taken(group: Group, blocksPerChunk: nat): nat
    requires blocksPerChunk > 0
  {
    if group.size == 0 then 0 else CeilDiv(group.size + group.index % blocksPerChunk, blocksPerChunk)
  }

  datatype Side = Side(tensors: seq<Tensor>, blocksPerChunk: nat)

  predicate RefsIn(refs: seq<Ref>, src: Side, dst: Side) {
    && src.blocksPerChunk > 0 && dst.blocksPerChunk > 0
    && forall ref :: ref in refs ==> ref.tensor < |src.tensors| && ref.tensor < |dst.tensors|
  }

  predicate Enough(blocks: seq<nat>, side: Side, skip: nat, n: nat) {
    skip + n <= |blocks| * side.blocksPerChunk
  }

  /** The copies of one layer, for one group. */
  function RefOps(ref: Ref, src: Side, dst: Side, srcBlocks: seq<nat>, dstBlocks: seq<nat>, n: nat,
                  srcSkip: nat, dstSkip: nat): (r: seq<Copy>)
    requires RefsIn([ref], src, dst) && Enough(srcBlocks, src, srcSkip, n) && Enough(dstBlocks, dst, dstSkip, n)
    ensures |r| == n
  {
    assert ref in [ref];
    seq(n, i requires 0 <= i < n =>
      Copy(NthSubBlock(src.tensors[ref.tensor], src.blocksPerChunk, srcBlocks, srcSkip + i),
           NthSubBlock(dst.tensors[ref.tensor], dst.blocksPerChunk, dstBlocks, dstSkip + i), ref.size))
  }

  /** The copies of all layers, for one group. */
  function GroupOps(refs: seq<Ref>, src: Side, dst: Side, srcBlocks: seq<nat>, dstBlocks: seq<nat>, n: nat,
                    srcSkip: nat, dstSkip: nat): (r: seq<Copy>)
    requires RefsIn(refs, src, dst) && Enough(srcBlocks, src, srcSkip, n) && Enough(dstBlocks, dst, dstSkip, n)
    ensures |r| == |refs| * n
  {
    if refs == [] then []
    else
      assert refs[|refs| - 1] in refs;
      MulAdd(|refs| - 1, 1, n);
      GroupOps(refs[..|refs| - 1], src, dst, srcBlocks, dstBlocks, n, srcSkip, dstSkip)
      + RefOps(refs[|refs| - 1], src, dst, srcBlocks, dstBlocks, n, srcSkip, dstSkip)
  }

  lemma NoGroupOps(src: Side, dst: Side, srcBlocks: seq<nat>, dstBlocks: seq<nat>, n: nat, srcSkip: nat, dstSkip: nat)
    requires RefsIn([], src, dst) && Enough(srcBlocks, src, srcSkip, n) && Enough(dstBlocks, dst, dstSkip, n)
    ensures GroupOps([], src, dst, srcBlocks, dstBlocks, n, srcSkip, dstSkip) == []
  {}

  lemma GroupOpsMore(refs: seq<Ref>, k: nat, src: Side, dst: Side, srcBlocks: seq<nat>, dstBlocks: seq<nat>, n: nat,
                     srcSkip: nat, dstSkip: nat)
    requires RefsIn(refs, src, dst) && Enough(srcBlocks, src, srcSkip, n) && Enough(dstBlocks, dst, dstSkip, n)
    requires k < |refs|
    ensures refs[k] in refs
    ensures GroupOps(refs[..k + 1], src, dst, srcBlocks, dstBlocks, n, srcSkip, dstSkip)
            == GroupOps(refs[..k], src, dst, srcBlocks, dstBlocks, n, srcSkip, dstSkip)
               + RefOps(refs[k], src, dst, srcBlocks, dstBlocks, n, srcSkip, dstSkip)
  {
    assert refs[..k + 1][..k] == refs[..k];
  }

  /** The descriptors in the first `n` places of the buffers. */
  function Descriptors(srcs: array<nat>, dsts: array<nat>, sizes: array<nat>, n: nat): (r: seq<Copy>)
    requires n <= srcs.Length && n <= dsts.Length && n <= sizes.Length
    reads srcs, dsts, sizes
    ensures |r| == n
  {
    seq(n, i requires 0 <= i < n reads srcs, dsts, sizes
      requires n <= srcs.Length && n <= dsts.Length && n <= sizes.Length => Copy(srcs[i], dsts[i], sizes[i]))
  }

  method FillRef(ref: Ref, src: Side, dst: Side, srcBlocks: seq<nat>, dstBlocks: seq<nat>, n: nat,
                 srcSkip: nat, dstSkip: nat, srcs: array<nat>, dsts: array<nat>, sizes: array<nat>, opIdx: nat)
    requires RefsIn([ref], src, dst) && Enough(srcBlocks, src, srcSkip, n) && Enough(dstBlocks, dst, dstSkip, n)
    requires srcSkip < src.blocksPerChunk && dstSkip < dst.blocksPerChunk
    requires srcs != dsts && srcs != sizes && dsts != sizes
    requires opIdx + n <= srcs.Length && opIdx + n <= dsts.Length && opIdx + n <= sizes.Length
    modifies srcs, dsts, sizes
    ensures Descriptors(srcs, dsts, sizes, opIdx + n)
            == old(Descriptors(srcs, dsts, sizes, opIdx)) + RefOps(ref, src, dst, srcBlocks, dstBlocks, n, srcSkip,
                dstSkip)
  {
    hide NthSubBlock;
    assert ref in [ref];
    ComputeSubBlockPtrs(srcBlocks, src.blocksPerChunk, src.tensors[ref.tensor], srcSkip, srcs, opIdx, n);
    ComputeSubBlockPtrs(dstBlocks, dst.blocksPerChunk, dst.tensors[ref.tensor], dstSkip, dsts, opIdx, n);
    for i := 0 to n
      invariant forall k :: 0 <= k < sizes.Length ==>
                  sizes[k] == if opIdx <= k < opIdx + i then ref.size else old(sizes[k])
      modifies sizes
    {
      sizes[opIdx + i] := ref.size;
    }
  }

  /** `_fill_direct_ops`. */
  method FillDirectOps(refs: seq<Ref>, src: Side, dst: Side, srcBlocks: seq<nat>, dstBlocks: seq<nat>, n: nat,
                       srcSkip: nat, dstSkip: nat, srcs: array<nat>, dsts: array<nat>, sizes: array<nat>, opIdx: nat)
    returns (end: nat)
    requires RefsIn(refs, src, dst) && Enough(srcBlocks, src, srcSkip, n) && Enough(dstBlocks, dst, dstSkip, n)
    requires srcSkip < src.blocksPerChunk && dstSkip < dst.blocksPerChunk
    requires srcs != dsts && srcs != sizes && dsts != sizes
    requires opIdx + |refs| * n <= srcs.Length == dsts.Length == sizes.Length
    modifies srcs, dsts, sizes
    ensures end == opIdx + |refs| * n
    ensures Descriptors(srcs, dsts, sizes, end)
            == old(Descriptors(srcs, dsts, sizes, opIdx)) + GroupOps(refs, src, dst, srcBlocks, dstBlocks, n,
                srcSkip, dstSkip)
  {
    hide Descriptors, GroupOps, RefOps, Enough;
    NoGroupOps(src, dst, srcBlocks, dstBlocks, n, srcSkip, dstSkip);
    assert refs[..0] == [];
    end := opIdx;
    for k := 0 to |refs|
      invariant end == opIdx + k * n
      invariant Descriptors(srcs, dsts, sizes, end)
        == old(Descriptors(srcs, dsts, sizes, opIdx)) + GroupOps(refs[..k], src, dst, srcBlocks, dstBlocks, n,
            srcSkip, dstSkip)
      modifies srcs, dsts, sizes
    {
      GroupOpsMore(refs, k, src, dst, srcBlocks, dstBlocks, n, srcSkip, dstSkip);
      MulAdd(k, 1, n);
      MulMonotone(k + 1, |refs|, n);
      FillRef(refs[k], src, dst, srcBlocks, dstBlocks, n, srcSkip, dstSkip, srcs, dsts, sizes, end);
      end := end + n;
    }
    assert refs[..|refs|] == refs;
  }
}
