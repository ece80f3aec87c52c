/** The canonical layout: ranks that hold the same bytes share one page and take
    turns writing it. */
module Canonical {
  import opened Arithmetic
  import opened Sequences
  import opened CopyEngine
  import opened Addressing

  // ---- what a mapping says ----

  /** Byte `l` of a rank's page is byte `c` of the shared one. */
  predicate RunByte(run: CopyRun, i: nat, x: nat, l: nat, c: nat) {
    && i < run.count && x < run.size
    && l == run.localOffset + i * run.localStride + x && c == run.canonicalOffset + i * run.canonicalStride + x
  }

  ghost predicate RunMaps(run: CopyRun, l: nat, c: nat) {
    exists i: nat, x: nat :: RunByte(run, i, x, l, c)
  }

  ghost predicate MapsTo(m: Mapping, l: nat, c: nat) {
    exists run :: run in m.runs && RunMaps(run, l, c)
  }

  /** `size` bytes at `local` of a rank's page are those at `canonical`. */
  datatype Fragment = Fragment(local: nat, canonical: nat, size: nat) {
    predicate Holds(l: nat, c: nat) { local <= l < local + size && c == canonical + (l - local) }
  }

  function RunFragments(run: CopyRun, n: nat): (r: seq<Fragment>)
    ensures |r| == n
  {
    seq(n, i requires 0 <= i < n =>
      Fragment(run.localOffset + i * run.localStride, run.canonicalOffset + i * run.canonicalStride, run.size))
  }

  function Fragments(runs: seq<CopyRun>): seq<Fragment> {
    if runs == [] then []
    else Fragments(runs[..|runs| - 1]) + RunFragments(runs[|runs| - 1], runs[|runs| - 1].count)
  }

  ghost predicate PlanMaps(plan: seq<Fragment>, l: nat, c: nat) {
    exists f :: f in plan && f.Holds(l, c)
  }

  lemma RunFragmentsMap(run: CopyRun, l: nat, c: nat)
    ensures PlanMaps(RunFragments(run, run.count), l, c) <==> RunMaps(run, l, c)
  {
    var plan := RunFragments(run, run.count);
    if f :| f in plan && f.Holds(l, c) {
      var i :| 0 <= i < |plan| && plan[i] == f;
      assert RunByte(run, i, l - f.local, l, c);
    }
    if i: nat, x: nat :| RunByte(run, i, x, l, c) {
      assert plan[i] in plan && plan[i].Holds(l, c);
    }
  }

  /** The plan moves exactly the bytes the runs name. */
  lemma {:induction false} FragmentsMap(runs: seq<CopyRun>, l: nat, c: nat)
    ensures PlanMaps(Fragments(runs), l, c) <==> exists run :: run in runs && RunMaps(run, l, c)
  {
    if runs != [] {
      var front, last := runs[..|runs| - 1], runs[|runs| - 1];
      FragmentsMap(front, l, c);
      RunFragmentsMap(last, l, c);
      hide RunMaps, RunFragments;
      assert runs == front + [last];
      assert Fragments(runs) == Fragments(front) + RunFragments(last, last.count);
      assert PlanMaps(Fragments(runs), l, c)
        <==> PlanMaps(Fragments(front), l, c) || PlanMaps(RunFragments(last, last.count), l, c);
    }
  }

  /** `_build_copy_plan`: the runs of a page, fragment by fragment. The plan
      moves exactly the bytes the mapping names. */
  method BuildCopyPlan(m: Mapping) returns (plan: seq<Fragment>)
    ensures plan == Fragments(m.runs)
    ensures forall l, c :: PlanMaps(plan, l, c) <==> MapsTo(m, l, c)
  {
    plan := [];
    for k := 0 to |m.runs|
      invariant plan == Fragments(m.runs[..k])
    {
      assert m.runs[..k + 1][..k] == m.runs[..k];
      var run := m.runs[k];
      for i := 0 to run.count
        invariant plan == Fragments(m.runs[..k]) + RunFragments(run, i)
      {
        plan := plan + [Fragment(run.localOffset + i * run.localStride,
                                 run.canonicalOffset + i * run.canonicalStride, run.size)];
      }
    }
    assert m.runs[..|m.runs|] == m.runs;
    forall l, c ensures PlanMaps(plan, l, c) <==> MapsTo(m, l, c) {
      FragmentsMap(m.runs, l, c);
    }
  }

  /** `_canonical_block_sizes`: the shared pages of a tensor are as wide as the
      widest of its layers'. */
  method CanonicalBlockSizes(refs: seq<Ref>, numTensors: nat) returns (sizes: seq<nat>)
    requires forall ref :: ref in refs ==> ref.tensor < numTensors
    ensures |sizes| == numTensors
    ensures forall ref :: ref in refs ==> ref.mapping.pageSize <= sizes[ref.tensor]
    ensures forall t :: 0 <= t < numTensors ==>
              sizes[t] == 0 || exists ref :: ref in refs && ref.tensor == t && ref.mapping.pageSize == sizes[t]
  {
    sizes := seq(numTensors, _ => 0);
    for k := 0 to |refs|
      invariant |sizes| == numTensors
      invariant forall j :: 0 <= j < k ==> refs[j].mapping.pageSize <= sizes[refs[j].tensor]
      invariant forall t :: 0 <= t < numTensors ==>
                  sizes[t] == 0 || exists ref :: ref in refs && ref.tensor == t && ref.mapping.pageSize == sizes[t]
    {
      var t := refs[k].tensor;
      assert refs[k] in refs;
      if refs[k].mapping.pageSize > sizes[t] {
        sizes := sizes[t := refs[k].mapping.pageSize];
      }
    }
  }

  // ---- page ids ----

  /** The id of the `n`-th page of the listed chunks, the same on every rank. */
  function PageId(blockIds: seq<nat>, blocksPerChunk: nat, n: nat): nat
    requires blocksPerChunk > 0 && n < |blockIds| * blocksPerChunk
  {
    QuotientBelow(n, |blockIds|, blocksPerChunk);
    blockIds[n / blocksPerChunk] * blocksPerChunk + n % blocksPerChunk
  }

  /** The ids run in step with the pointers: the id names chunk and slot. */
  lemma IdNamesPointer(t: Tensor, blocksPerChunk: nat, blockIds: seq<nat>, n: nat)
    requires blocksPerChunk > 0 && n < |blockIds| * blocksPerChunk
    ensures var id := PageId(blockIds, blocksPerChunk, n);
            NthSubBlock(t, blocksPerChunk, blockIds, n)
            == SubAddress(t, blocksPerChunk, id / blocksPerChunk, id % blocksPerChunk)
  {
    QuotientBelow(n, |blockIds|, blocksPerChunk);
    Split(blockIds[n / blocksPerChunk], n % blocksPerChunk, blocksPerChunk);
  }

  function PageIds(blockIds: seq<nat>, blocksPerChunk: nat, count: nat, skip: nat): (ids: seq<nat>)
    requires blocksPerChunk > 0 && skip + count <= |blockIds| * blocksPerChunk
    ensures |ids| == count
  {
    seq<nat>(count, i requires 0 <= i < count => PageId(blockIds, blocksPerChunk, skip + i))
  }

  /** `_canonical_page_ids`: whole chunks laid out, then cut to size. */
  method CanonicalPageIds(blockIds: seq<nat>, blocksPerChunk: nat, count: nat, skip: nat) returns (ids: seq<nat>)
    requires blocksPerChunk > 0 && skip < blocksPerChunk && skip + count <= |blockIds| * blocksPerChunk
    ensures ids == PageIds(blockIds, blocksPerChunk, count, skip)
  {
    if blocksPerChunk == 1 {
      assert forall i :: 0 <= i < count ==> PageId(blockIds, 1, i) == blockIds[i];
      return blockIds[..count];
    }
    var flat: seq<nat> := [];
    for b := 0 to |blockIds|
      invariant |flat| == b * blocksPerChunk <= |blockIds| * blocksPerChunk
      invariant forall j :: 0 <= j < |flat| ==> flat[j] == PageId(blockIds, blocksPerChunk, j)
    {
      MulAdd(b, 1, blocksPerChunk);
      MulMonotone(b + 1, |blockIds|, blocksPerChunk);
      for s := 0 to blocksPerChunk
        invariant |flat| == b * blocksPerChunk + s <= |blockIds| * blocksPerChunk
        invariant forall j :: 0 <= j < |flat| ==> flat[j] == PageId(blockIds, blocksPerChunk, j)
      {
        Split(b, s, blocksPerChunk);
        flat := flat + [blockIds[b] * blocksPerChunk + s];
      }
    }
    ids := flat[skip..skip + count];
  }

  // ---- who writes ----

  /** Whether it is this rank's turn to write page `id`. */
  predicate Writes(m: Mapping, id: nat) {
    m.numWriters > 1 ==> id % m.numWriters == m.writerIndex
  }

  /** The positions of the pages this rank writes, in order. */
  function Elected(ids: seq<nat>, m: Mapping, n: nat): (r: seq<nat>)
    requires n <= |ids|
    ensures forall i: nat :: i in r <==> i < n && Writes(m, ids[i])
    ensures |r| <= n && forall k :: 0 <= k < |r| ==> r[k] < n
  {
    if n == 0 then []
    else Elected(ids, m, n - 1) + if Writes(m, ids[n - 1]) then [n - 1] else []
  }

  /** `_filter_writer_blocks`. */
  method FilterWriterBlocks(srcBases: seq<nat>, dstBases: seq<nat>, ids: seq<nat>, m: Mapping)
    returns (srcs: seq<nat>, dsts: seq<nat>)
    requires m.numWriters > 1 && |srcBases| == |dstBases| == |ids|
    ensures |srcs| == |dsts| == |Elected(ids, m, |ids|)|
    ensures forall k :: 0 <= k < |srcs| ==>
              srcs[k] == srcBases[Elected(ids, m, |ids|)[k]] && dsts[k] == dstBases[Elected(ids, m, |ids|)[k]]
  {
    srcs, dsts := [], [];
    for i := 0 to |ids|
      invariant |srcs| == |dsts| == |Elected(ids, m, i)|
      invariant forall k :: 0 <= k < |srcs| ==>
                  srcs[k] == srcBases[Elected(ids, m, i)[k]] && dsts[k] == dstBases[Elected(ids, m, i)[k]]
    {
      if ids[i] % m.numWriters == m.writerIndex {
        srcs, dsts := srcs + [srcBases[i]], dsts + [dstBases[i]];
      }
    }
  }

  /** Of the ranks that take turns, exactly one writes each page of a transfer. */
  lemma ExactlyOneWriter(replicas: seq<Mapping>, ids: seq<nat>, i: nat)
    requires i < |ids| && |replicas| > 0
    requires forall w :: 0 <= w < |replicas| ==> replicas[w].numWriters == |replicas| && replicas[w].writerIndex == w
    ensures exists w :: 0 <= w < |replicas| && i in Elected(ids, replicas[w], |ids|)
    ensures forall v, w :: 0 <= v < w < |replicas| && i in Elected(ids, replicas[v], |ids|) ==>
              i !in Elected(ids, replicas[w], |ids|)
  {
    var w := ids[i] % |replicas|;
    assert Writes(replicas[w], ids[i]);
    assert i in Elected(ids, replicas[w], |ids|);
  }

  // ---- one layer of a group ----

  /** One copy for every block and fragment. */
  function Expanded(srcs: seq<nat>, dsts: seq<nat>, plan: seq<Fragment>, gpuToCpu: bool, n: nat): (r: seq<Copy>)
    requires |srcs| == |dsts| && n <= |srcs| * |plan|
    ensures |r| == n
  {
    seq(n, i requires 0 <= i < n =>
      PlaceBelow(i, |srcs|, |plan|);
      FragmentCopy(srcs[i / |plan|], dsts[i / |plan|], plan[i % |plan|], gpuToCpu))
  }

  function FragmentCopy(src: nat, dst: nat, f: Fragment, gpuToCpu: bool): Copy {
    if gpuToCpu then Copy(src + f.local, dst + f.canonical, f.size)
    else Copy(src + f.canonical, dst + f.local, f.size)
  }

  lemma PlaceBelow(i: nat, blocks: nat, n: nat)
    requires i < blocks * n
    ensures n > 0 && i / n < blocks && i % n < n
  {
    if n > 0 { QuotientBelow(i, blocks, n); }
  }

  lemma ExpandedAt(srcs: seq<nat>, dsts: seq<nat>, plan: seq<Fragment>, gpuToCpu: bool, n: nat, i: nat)
    returns (k: nat, f: Fragment)
    requires |srcs| == |dsts| && i < n <= |srcs| * |plan|
    ensures k < |srcs| && f in plan
    ensures Expanded(srcs, dsts, plan, gpuToCpu, n)[i] == FragmentCopy(srcs[k], dsts[k], f, gpuToCpu)
  {
    hide FragmentCopy;
    PlaceBelow(i, |srcs|, |plan|);
    k, f := i / |plan|, plan[i % |plan|];
  }

  /** Every copy is that of a block and a fragment of the plan ... */
  lemma ExpandedIs(srcs: seq<nat>, dsts: seq<nat>, plan: seq<Fragment>, gpuToCpu: bool, n: nat, c: Copy)
    returns (k: nat, f: Fragment)
    requires |srcs| == |dsts| && n <= |srcs| * |plan| && c in Expanded(srcs, dsts, plan, gpuToCpu, n)
    ensures k < |srcs| && f in plan && c == FragmentCopy(srcs[k], dsts[k], f, gpuToCpu)
  {
    hide FragmentCopy, Expanded;
    var ops := Expanded(srcs, dsts, plan, gpuToCpu, n);
    var i :| 0 <= i < |ops| && ops[i] == c;
    k, f := ExpandedAt(srcs, dsts, plan, gpuToCpu, n, i);
  }

  /** ... and every block and fragment has one. */
  lemma ExpandedHas(srcs: seq<nat>, dsts: seq<nat>, plan: seq<Fragment>, gpuToCpu: bool, k: nat, x: nat)
    requires |srcs| == |dsts| && k < |srcs| && x < |plan|
    ensures FragmentCopy(srcs[k], dsts[k], plan[x], gpuToCpu)
            in Expanded(srcs, dsts, plan, gpuToCpu, |srcs| * |plan|)
  {
    hide FragmentCopy;
    Split(k, x, |plan|);
    MulAdd(k, 1, |plan|);
    MulMonotone(k + 1, |srcs|, |plan|);
    var i := k * |plan| + x;
    assert Expanded(srcs, dsts, plan, gpuToCpu, |srcs| * |plan|)[i] == FragmentCopy(srcs[k], dsts[k], plan[x], gpuToCpu);
  }

  /** The positions that take part: on a store those this rank writes. */
  function Active(ids: seq<nat>, m: Mapping, gpuToCpu: bool): (r: seq<nat>)
    ensures |r| <= |ids| && forall k :: 0 <= k < |r| ==> r[k] < |ids|
    ensures forall i: nat :: i in r <==> i < |ids| && (gpuToCpu ==> Writes(m, ids[i]))
  {
    if gpuToCpu && m.numWriters > 1 then Elected(ids, m, |ids|) else Upto(|ids|)
  }

  function Upto(n: nat): (r: seq<nat>)
    ensures |r| == n && forall k :: 0 <= k < n ==> r[k] == k
    ensures forall i: nat :: i in r <==> i < n
  {
    if n == 0 then [] else Upto(n - 1) + [n - 1]
  }

  /** The addresses of the sub-blocks at the given positions. */
  function Bases(t: Tensor, blocksPerChunk: nat, blocks: seq<nat>, skip: nat, n: nat, at: seq<nat>): (r: seq<nat>)
    requires blocksPerChunk > 0 && skip + n <= |blocks| * blocksPerChunk
    requires forall k :: 0 <= k < |at| ==> at[k] < n
    ensures |r| == |at|
  {
    seq(|at|, k requires 0 <= k < |at| => NthSubBlock(t, blocksPerChunk, blocks, skip + at[k]))
  }

  /** The copies of one layer, for one group. */
  function CanonicalRefOps(ref: Ref, src: Side, dst: Side, srcBlocks: seq<nat>, dstBlocks: seq<nat>, n: nat,
                           srcSkip: nat, dstSkip: nat, gpuToCpu: bool): (r: seq<Copy>)
    requires RefsIn([ref], src, dst) && Enough(srcBlocks, src, srcSkip, n) && Enough(dstBlocks, dst, dstSkip, n)
    ensures |r| <= n * |Fragments(ref.mapping.runs)|
  {
    assert ref in [ref];
    var plan := Fragments(ref.mapping.runs);
    var at := Active(PageIds(dstBlocks, dst.blocksPerChunk, n, dstSkip), ref.mapping, gpuToCpu);
    MulMonotone(|at|, n, |plan|);
    Expanded(Bases(src.tensors[ref.tensor], src.blocksPerChunk, srcBlocks, srcSkip, n, at),
             Bases(dst.tensors[ref.tensor], dst.blocksPerChunk, dstBlocks, dstSkip, n, at), plan, gpuToCpu,
             |at| * |plan|)
  }

  /** The fragments of all layers of a group. */
  function PlanSize(refs: seq<Ref>): nat {
    if refs == [] then 0 else PlanSize(refs[..|refs| - 1]) + |Fragments(refs[|refs| - 1].mapping.runs)|
  }

  /** The copies of all layers, for one group. */
  function CanonicalGroupOps(refs: seq<Ref>, src: Side, dst: Side, srcBlocks: seq<nat>, dstBlocks: seq<nat>, n: nat,
                             srcSkip: nat, dstSkip: nat, gpuToCpu: bool): seq<Copy>
    requires RefsIn(refs, src, dst) && Enough(srcBlocks, src, srcSkip, n) && Enough(dstBlocks, dst, dstSkip, n)
  {
    if refs == [] then []
    else
      assert refs[|refs| - 1] in refs;
      CanonicalGroupOps(refs[..|refs| - 1], src, dst, srcBlocks, dstBlocks, n, srcSkip, dstSkip, gpuToCpu)
      + CanonicalRefOps(refs[|refs| - 1], src, dst, srcBlocks, dstBlocks, n, srcSkip, dstSkip, gpuToCpu)
  }

  /** The expansion at the heart of `_fill_canonical_ops`, into the buffers. */
  method Expand(srcBases: seq<nat>, dstBases: seq<nat>, plan: seq<Fragment>, gpuToCpu: bool,
                srcs: array<nat>, dsts: array<nat>, sizes: array<nat>, opIdx: nat) returns (end: nat)
    requires |srcBases| == |dstBases| && srcs != dsts && srcs != sizes && dsts != sizes
    requires opIdx + |srcBases| * |plan| <= srcs.Length == dsts.Length == sizes.Length
    modifies srcs, dsts, sizes
    ensures end == opIdx + |srcBases| * |plan|
    ensures Descriptors(srcs, dsts, sizes, end) == old(Descriptors(srcs, dsts, sizes, opIdx))
                                                   + Expanded(srcBases, dstBases, plan, gpuToCpu, |srcBases| * |plan|)
  {
    hide Expanded, Descriptors;
    end := opIdx;
    NothingWritten(srcs, dsts, sizes, opIdx, srcBases, dstBases, plan, gpuToCpu);
    for b := 0 to |srcBases|
      invariant end == opIdx + b * |plan| <= opIdx + |srcBases| * |plan|
      invariant Descriptors(srcs, dsts, sizes, end)
        == old(Descriptors(srcs, dsts, sizes, opIdx)) + Expanded(srcBases, dstBases, plan, gpuToCpu, b * |plan|)
    {
      MulAdd(b, 1, |plan|);
      MulMonotone(b + 1, |srcBases|, |plan|);
      for f := 0 to |plan|
        invariant end == opIdx + b * |plan| + f
        invariant Descriptors(srcs, dsts, sizes, end)
          == old(Descriptors(srcs, dsts, sizes, opIdx)) + Expanded(srcBases, dstBases, plan, gpuToCpu, b * |plan| + f)
      {
        var op := FragmentCopy(srcBases[b], dstBases[b], plan[f], gpuToCpu);
        ExpandedNext(srcBases, dstBases, plan, gpuToCpu, b, f);
        WriteOp(op.src, op.dst, op.size, srcs, dsts, sizes, end);
        end := end + 1;
      }
    }
  }

  lemma NothingWritten(srcs: array<nat>, dsts: array<nat>, sizes: array<nat>, n: nat, srcBases: seq<nat>,
                       dstBases: seq<nat>, plan: seq<Fragment>, gpuToCpu: bool)
    requires |srcBases| == |dstBases| && n <= srcs.Length == dsts.Length == sizes.Length
    ensures Descriptors(srcs, dsts, sizes, n)
            == Descriptors(srcs, dsts, sizes, n) + Expanded(srcBases, dstBases, plan, gpuToCpu, 0)
  {}

  method WriteOp(src: nat, dst: nat, size: nat, srcs: array<nat>, dsts: array<nat>, sizes: array<nat>, at: nat)
    requires srcs != dsts && srcs != sizes && dsts != sizes && at < srcs.Length == dsts.Length == sizes.Length
    modifies srcs, dsts, sizes
    ensures Descriptors(srcs, dsts, sizes, at + 1)
            == old(Descriptors(srcs, dsts, sizes, at)) + [Copy(src, dst, size)]
  {
    srcs[at], dsts[at], sizes[at] := src, dst, size;
  }

  lemma ExpandedNext(srcs: seq<nat>, dsts: seq<nat>, plan: seq<Fragment>, gpuToCpu: bool, b: nat, f: nat)
    requires |srcs| == |dsts| && b < |srcs| && f < |plan| && b * |plan| + f < |srcs| * |plan|
    ensures Expanded(srcs, dsts, plan, gpuToCpu, b * |plan| + f + 1)
            == Expanded(srcs, dsts, plan, gpuToCpu, b * |plan| + f)
               + [FragmentCopy(srcs[b], dsts[b], plan[f], gpuToCpu)]
  {
    Split(b, f, |plan|);
  }

  /** The addresses of all blocks of a group on one side. */
  method BlockBases(blocks: seq<nat>, blocksPerChunk: nat, t: Tensor, skip: nat, n: nat) returns (bases: seq<nat>)
    requires skip < blocksPerChunk && skip + n <= |blocks| * blocksPerChunk
    ensures |bases| == n && forall i :: 0 <= i < n ==> bases[i] == NthSubBlock(t, blocksPerChunk, blocks, skip + i)
  {
    var scratch := new nat[n];
    ComputeSubBlockPtrs(blocks, blocksPerChunk, t, skip, scratch, 0, n);
    bases := scratch[..];
  }

  /** One layer of `_fill_canonical_ops`: the blocks this rank writes, or loads,
      each through the plan. */
  method FillCanonicalRef(ref: Ref, src: Side, dst: Side, srcBlocks: seq<nat>, dstBlocks: seq<nat>, n: nat,
                          srcSkip: nat, dstSkip: nat, gpuToCpu: bool, srcs: array<nat>, dsts: array<nat>,
                          sizes: array<nat>, opIdx: nat) returns (end: nat)
    requires RefsIn([ref], src, dst) && Enough(srcBlocks, src, srcSkip, n) && Enough(dstBlocks, dst, dstSkip, n)
    requires srcSkip < src.blocksPerChunk && dstSkip < dst.blocksPerChunk
    requires srcs != dsts && srcs != sizes && dsts != sizes
    requires opIdx + n * |Fragments(ref.mapping.runs)| <= srcs.Length == dsts.Length == sizes.Length
    modifies srcs, dsts, sizes
    ensures var ops := CanonicalRefOps(ref, src, dst, srcBlocks, dstBlocks, n, srcSkip, dstSkip, gpuToCpu);
            && end == opIdx + |ops|
            && Descriptors(srcs, dsts, sizes, end) == old(Descriptors(srcs, dsts, sizes, opIdx)) + ops
  {
    hide NthSubBlock, Expanded, Fragments, Elected, PageId, PlanMaps;
    assert ref in [ref];
    var plan := BuildCopyPlan(ref.mapping);
    if plan == [] {
      return opIdx;
    }
    var srcBases := BlockBases(srcBlocks, src.blocksPerChunk, src.tensors[ref.tensor], srcSkip, n);
    var dstBases := BlockBases(dstBlocks, dst.blocksPerChunk, dst.tensors[ref.tensor], dstSkip, n);
    ghost var at := Active(PageIds(dstBlocks, dst.blocksPerChunk, n, dstSkip), ref.mapping, gpuToCpu);
    if gpuToCpu && ref.mapping.numWriters > 1 {
      var ids := CanonicalPageIds(dstBlocks, dst.blocksPerChunk, n, dstSkip);
      srcBases, dstBases := FilterWriterBlocks(srcBases, dstBases, ids, ref.mapping);
    }
    assert srcBases == Bases(src.tensors[ref.tensor], src.blocksPerChunk, srcBlocks, srcSkip, n, at);
    assert dstBases == Bases(dst.tensors[ref.tensor], dst.blocksPerChunk, dstBlocks, dstSkip, n, at);
    MulMonotone(|at|, n, |plan|);
    end := Expand(srcBases, dstBases, plan, gpuToCpu, srcs, dsts, sizes, opIdx);
  }

  /** Not more copies than the buffers are sized for. */
  lemma {:induction false} CanonicalGroupBound(refs: seq<Ref>, src: Side, dst: Side, srcBlocks: seq<nat>,
                                               dstBlocks: seq<nat>, n: nat, srcSkip: nat, dstSkip: nat, gpuToCpu: bool)
    requires RefsIn(refs, src, dst) && Enough(srcBlocks, src, srcSkip, n) && Enough(dstBlocks, dst, dstSkip, n)
    ensures |CanonicalGroupOps(refs, src, dst, srcBlocks, dstBlocks, n, srcSkip, dstSkip, gpuToCpu)|
            <= n * PlanSize(refs)
  {
    if refs == [] {
    } else {
      var front, last := refs[..|refs| - 1], refs[|refs| - 1];
      assert last in refs;
      CanonicalGroupBound(front, src, dst, srcBlocks, dstBlocks, n, srcSkip, dstSkip, gpuToCpu);
      Distributes(n, PlanSize(front), |Fragments(last.mapping.runs)|);
      hide CanonicalRefOps, Enough, Fragments;
    }
  }

  lemma Distributes(n: nat, a: nat, b: nat)
    ensures n * (a + b) == n * a + n * b
  {}

  lemma PlanSizeNext(refs: seq<Ref>, k: nat)
    requires k < |refs|
    ensures PlanSize(refs[..k + 1]) == PlanSize(refs[..k]) + |Fragments(refs[k].mapping.runs)|
  {
    assert refs[..k + 1][..k] == refs[..k];
  }

  lemma {:induction false} PlanSizeGrows(refs: seq<Ref>, k: nat)
    requires k <= |refs|
    ensures PlanSize(refs[..k]) <= PlanSize(refs)
    decreases |refs| - k
  {
    if k == |refs| {
      assert refs[..k] == refs;
    } else {
      PlanSizeNext(refs, k);
      PlanSizeGrows(refs, k + 1);
    }
  }

  /** There is room for the next layer. */
  lemma RoomForNext(refs: seq<Ref>, k: nat, n: nat, done: nat)
    requires k < |refs| && done <= n * PlanSize(refs[..k])
    ensures done + n * |Fragments(refs[k].mapping.runs)| <= n * PlanSize(refs)
  {
    PlanSizeNext(refs, k);
    PlanSizeGrows(refs, k + 1);
    Distributes(n, PlanSize(refs[..k]), |Fragments(refs[k].mapping.runs)|);
    var all, some := PlanSize(refs), PlanSize(refs[..k + 1]);
    hide PlanSize, Fragments;
    MulMonotone(some, all, n);
  }

  /** `_fill_canonical_ops`. */
  method FillCanonicalOps(refs: seq<Ref>, src: Side, dst: Side, srcBlocks: seq<nat>, dstBlocks: seq<nat>, n: nat,
                          srcSkip: nat, dstSkip: nat, gpuToCpu: bool, srcs: array<nat>, dsts: array<nat>,
                          sizes: array<nat>, opIdx: nat) returns (end: nat)
    requires RefsIn(refs, src, dst) && Enough(srcBlocks, src, srcSkip, n) && Enough(dstBlocks, dst, dstSkip, n)
    requires srcSkip < src.blocksPerChunk && dstSkip < dst.blocksPerChunk
    requires srcs != dsts && srcs != sizes && dsts != sizes
    requires opIdx + n * PlanSize(refs) <= srcs.Length == dsts.Length == sizes.Length
    modifies srcs, dsts, sizes
    ensures opIdx <= end <= srcs.Length
    ensures var ops := CanonicalGroupOps(refs, src, dst, srcBlocks, dstBlocks, n, srcSkip, dstSkip, gpuToCpu);
            && end == opIdx + |ops|
            && Descriptors(srcs, dsts, sizes, end) == old(Descriptors(srcs, dsts, sizes, opIdx)) + ops
  {
    hide Descriptors, CanonicalRefOps, Enough, PlanSize;
    end := opIdx;
    for k := 0 to |refs|
      invariant opIdx <= end <= srcs.Length
      invariant var ops := CanonicalGroupOps(refs[..k], src, dst, srcBlocks, dstBlocks, n, srcSkip, dstSkip, gpuToCpu);
                && end == opIdx + |ops|
                && Descriptors(srcs, dsts, sizes, end) == old(Descriptors(srcs, dsts, sizes, opIdx)) + ops
      modifies srcs, dsts, sizes
    {
      assert refs[k] in refs && refs[..k + 1][..k] == refs[..k];
      CanonicalGroupBound(refs[..k], src, dst, srcBlocks, dstBlocks, n, srcSkip, dstSkip, gpuToCpu);
      RoomForNext(refs, k, n, end - opIdx);
      end := FillCanonicalRef(refs[k], src, dst, srcBlocks, dstBlocks, n, srcSkip, dstSkip, gpuToCpu, srcs, dsts, sizes,
          end);
    }
    assert refs[..|refs|] == refs;
  }
}
