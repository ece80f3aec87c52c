/** What is stored can be loaded again, whatever happens to other cells. */
module RoundTrip {
  import opened Arithmetic
  import opened Sequences
  import opened CopyEngine
  import opened Registration
  import opened Layout
  import opened Addressing
  import opened Transfers

  /** One worker: its rank in the shared region, and its tensors on the GPU. */
  datatype Worker = Worker(region: Region, rank: nat, gpu: seq<Tensor>, gpuBlocks: nat) {
    /** The GPU tensors and the region do not overlap. */
    ghost predicate Valid() {
      && region.Valid() && rank < region.world && |gpu| == |region.pages|
      && (forall t :: 0 <= t < |gpu| ==> region.pages[t] <= gpu[t].stride)
      && (forall t :: 0 <= t < |gpu| ==>
            Disjoint(gpu[t].base, gpuBlocks * gpu[t].stride, region.base, region.numBlocks * region.rowStride))
      && (forall t, u :: 0 <= t < u < |gpu| ==>
            Disjoint(gpu[t].base, gpuBlocks * gpu[t].stride, gpu[u].base, gpuBlocks * gpu[u].stride))
    }
  }

  /** The view of a tensor in the region, one row for each chunk. */
  function CpuTensor(w: Worker, t: nat): Tensor
    requires t < |w.region.pages|
  {
    Tensor(w.region.base + Part(w.region, w.rank, t), w.region.rowStride, w.region.pages[t] * w.region.blocksPerChunk)
  }

  function CpuSide(w: Worker): Side {
    Side(seq(|w.region.pages|, t requires 0 <= t < |w.region.pages| => CpuTensor(w, t)), w.region.blocksPerChunk)
  }

  function GpuSide(w: Worker): Side {
    Side(w.gpu, 1)
  }

  /** One page of a transfer: block `logical` of a group, for one layer. */
  datatype Page = Page(ref: Ref, group: nat, logical: nat, gpuBlock: nat, chunk: nat, sub: nat)

  function CellOf(w: Worker, p: Page): Cell {
    Cell(w.rank, p.ref.tensor, p.chunk, p.sub)
  }

  predicate PageIn(w: Worker, p: Page) {
    && TensorIn(w, p.ref) && p.ref.size <= w.region.pages[p.ref.tensor]
    && p.gpuBlock < w.gpuBlocks && p.chunk < w.region.numBlocks && p.sub < w.region.blocksPerChunk
    && w.rank < w.region.world
  }

  predicate TensorIn(w: Worker, ref: Ref) {
    ref.tensor < |w.region.pages| && ref.tensor < |w.gpu|
  }

  function GpuAddress(w: Worker, p: Page): nat
    requires p.ref.tensor < |w.gpu|
  {
    w.gpu[p.ref.tensor].base + p.gpuBlock * w.gpu[p.ref.tensor].stride
  }

  function CpuAddress(w: Worker, p: Page): nat
    requires p.ref.tensor < |w.region.pages|
  {
    CellStart(w.region, CellOf(w, p))
  }

  function StoreCopy(w: Worker, p: Page): Copy
    requires TensorIn(w, p.ref)
  {
    Copy(GpuAddress(w, p), CpuAddress(w, p), p.ref.size)
  }

  function LoadCopy(w: Worker, p: Page): Copy
    requires TensorIn(w, p.ref)
  {
    Copy(CpuAddress(w, p), GpuAddress(w, p), p.ref.size)
  }

  // ---- addresses of pages ----

  /** On the CPU side the n-th sub-block is the cell of chunk n / b, slot n % b. */
  lemma CpuSubBlock(w: Worker, t: nat, chunks: seq<nat>, n: nat)
    requires w.region.Valid() && t < |w.region.pages| && n < |chunks| * w.region.blocksPerChunk
    ensures var b := w.region.blocksPerChunk;
            && n / b < |chunks| && n % b < b
            && NthSubBlock(CpuTensor(w, t), b, chunks, n) == CellStart(w.region, Cell(w.rank, t, chunks[n / b], n % b))
  {
    QuotientBelow(n, |chunks|, w.region.blocksPerChunk);
    WholeQuotient(w.region.pages[t], w.region.blocksPerChunk);
  }

  lemma GpuSubBlock(w: Worker, t: nat, blocks: seq<nat>, n: nat)
    requires t < |w.gpu| && n < |blocks|
    ensures NthSubBlock(w.gpu[t], 1, blocks, n) == w.gpu[t].base + blocks[n] * w.gpu[t].stride
  {}

  /** Entered at `index % b`, the enumeration runs through the logical blocks. */
  lemma LogicalSlot(index: nat, i: nat, b: nat)
    requires b > 0
    ensures (index % b + i) / b == (index + i) / b - index / b
    ensures (index % b + i) % b == (index + i) % b
  {
    var n := index % b + i;
    DivMod(index, b);
    DivMod(n, b);
    MulAdd(index / b, n / b, b);
    Split(index / b + n / b, n % b, b);
  }

  // ---- the pages of a transfer ----

  function RefPages(ref: Ref, group: nat, index: nat, n: nat, gpu: seq<nat>, cpu: seq<nat>, b: nat): (r: seq<Page>)
    requires b > 0 && n <= |gpu| && index % b + n <= |cpu| * b
    ensures |r| == n
  {
    seq(n, i requires 0 <= i < n =>
      QuotientBelow(index % b + i, |cpu|, b);
      Page(ref, group, index + i, gpu[i], cpu[(index % b + i) / b], (index % b + i) % b))
  }

  function GroupPages(refs: seq<Ref>, group: nat, index: nat, n: nat, gpu: seq<nat>, cpu: seq<nat>,
                      b: nat): (r: seq<Page>)
    requires b > 0 && n <= |gpu| && index % b + n <= |cpu| * b
    ensures |r| == |refs| * n
  {
    if refs == [] then []
    else
      MulAdd(|refs| - 1, 1, n);
      GroupPages(refs[..|refs| - 1], group, index, n, gpu, cpu, b)
      + RefPages(refs[|refs| - 1], group, index, n, gpu, cpu, b)
  }

  predicate Listed(groups: seq<Group>, refs: seq<seq<Ref>>, gpu: seq<nat>, cpu: seq<nat>, b: nat) {
    |refs| == |groups| && b > 0 && Used(groups, 1) <= |gpu| && Used(groups, b) <= |cpu|
  }

  function LastGpu(groups: seq<Group>, gpu: seq<nat>): (r: seq<nat>)
    requires groups != [] && Used(groups, 1) <= |gpu|
    ensures groups[|groups| - 1].size <= |r|
  {
    gpu[Used(groups[..|groups| - 1], 1)..Used(groups, 1)]
  }

  function LastCpu(groups: seq<Group>, cpu: seq<nat>, b: nat): (r: seq<nat>)
    requires b > 0 && groups != [] && Used(groups, b) <= |cpu|
    ensures var last := groups[|groups| - 1]; last.size > 0 ==> last.index % b + last.size <= |r| * b
  {
    cpu[Used(groups[..|groups| - 1], b)..Used(groups, b)]
  }

  /** The pages of the last of the groups. */
  function LastPages(groups: seq<Group>, refs: seq<seq<Ref>>, gpu: seq<nat>, cpu: seq<nat>, b: nat): seq<Page>
    requires Listed(groups, refs, gpu, cpu, b) && groups != []
  {
    var last := groups[|groups| - 1];
    if last.size == 0 then []
    else GroupPages(refs[|refs| - 1], |groups| - 1, last.index, last.size, LastGpu(groups, gpu),
                    LastCpu(groups, cpu, b), b)
  }

  function PagesOf(groups: seq<Group>, refs: seq<seq<Ref>>, gpu: seq<nat>, cpu: seq<nat>, b: nat): seq<Page>
    requires Listed(groups, refs, gpu, cpu, b)
  {
    if groups == [] then []
    else
      PagesOf(groups[..|groups| - 1], refs[..|refs| - 1], gpu, cpu, b) + LastPages(groups, refs, gpu, cpu, b)
  }

  predicate AllIn(w: Worker, refs: seq<Ref>) {
    forall ref :: ref in refs ==> TensorIn(w, ref)
  }

  /** The copies that carry out `pages`, in either direction. */
  ghost predicate Carries(w: Worker, pages: seq<Page>, stores: seq<Copy>, loads: seq<Copy>) {
    && |stores| == |loads| == |pages|
    && forall i :: 0 <= i < |pages| ==>
         TensorIn(w, pages[i].ref) && stores[i] == StoreCopy(w, pages[i]) && loads[i] == LoadCopy(w, pages[i])
  }

  lemma CarriesMore(w: Worker, p1: seq<Page>, s1: seq<Copy>, l1: seq<Copy>, p2: seq<Page>, s2: seq<Copy>, l2: seq<Copy>)
    requires Carries(w, p1, s1, l1) && Carries(w, p2, s2, l2)
    ensures Carries(w, p1 + p2, s1 + s2, l1 + l2)
  {}

  lemma SidesFit(w: Worker, refs: seq<Ref>)
    requires w.Valid() && AllIn(w, refs)
    ensures RefsIn(refs, GpuSide(w), CpuSide(w)) && RefsIn(refs, CpuSide(w), GpuSide(w))
  {}

  lemma RefCarries(w: Worker, ref: Ref, group: nat, index: nat, n: nat, gpu: seq<nat>, cpu: seq<nat>)
    requires w.Valid() && TensorIn(w, ref) && n <= |gpu|
    requires index % w.region.blocksPerChunk + n <= |cpu| * w.region.blocksPerChunk
    requires RefsIn([ref], GpuSide(w), CpuSide(w)) && RefsIn([ref], CpuSide(w), GpuSide(w))
    ensures var b := w.region.blocksPerChunk;
            Carries(w, RefPages(ref, group, index, n, gpu, cpu, b),
                    RefOps(ref, GpuSide(w), CpuSide(w), gpu, cpu, n, 0, index % b),
                    RefOps(ref, CpuSide(w), GpuSide(w), cpu, gpu, n, index % b, 0))
  {
    var b := w.region.blocksPerChunk;
    var pages := RefPages(ref, group, index, n, gpu, cpu, b);
    var stores := RefOps(ref, GpuSide(w), CpuSide(w), gpu, cpu, n, 0, index % b);
    var loads := RefOps(ref, CpuSide(w), GpuSide(w), cpu, gpu, n, index % b, 0);
    hide NthSubBlock, CellStart;
    forall i | 0 <= i < n ensures stores[i] == StoreCopy(w, pages[i]) && loads[i] == LoadCopy(w, pages[i]) {
      GpuSubBlock(w, ref.tensor, gpu, i);
      CpuSubBlock(w, ref.tensor, cpu, index % b + i);
    }
  }

  lemma {:induction false} GroupCarries(w: Worker, refs: seq<Ref>, group: nat, index: nat, n: nat, gpu: seq<nat>,
                                        cpu: seq<nat>)
    requires w.Valid() && AllIn(w, refs) && n <= |gpu|
    requires index % w.region.blocksPerChunk + n <= |cpu| * w.region.blocksPerChunk
    ensures RefsIn(refs, GpuSide(w), CpuSide(w)) && RefsIn(refs, CpuSide(w), GpuSide(w))
    ensures var b := w.region.blocksPerChunk;
            Carries(w, GroupPages(refs, group, index, n, gpu, cpu, b),
                    GroupOps(refs, GpuSide(w), CpuSide(w), gpu, cpu, n, 0, index % b),
                    GroupOps(refs, CpuSide(w), GpuSide(w), cpu, gpu, n, index % b, 0))
  {
    SidesFit(w, refs);
    if refs != [] {
      var front, last := refs[..|refs| - 1], refs[|refs| - 1];
      var b := w.region.blocksPerChunk;
      assert last in refs;
      SidesFit(w, [last]);
      GroupCarries(w, front, group, index, n, gpu, cpu);
      RefCarries(w, last, group, index, n, gpu, cpu);
      hide Carries, RefOps, RefPages;
      CarriesMore(w, GroupPages(front, group, index, n, gpu, cpu, b),
                  GroupOps(front, GpuSide(w), CpuSide(w), gpu, cpu, n, 0, index % b),
                  GroupOps(front, CpuSide(w), GpuSide(w), cpu, gpu, n, index % b, 0),
                  RefPages(last, group, index, n, gpu, cpu, b),
                  RefOps(last, GpuSide(w), CpuSide(w), gpu, cpu, n, 0, index % b),
                  RefOps(last, CpuSide(w), GpuSide(w), cpu, gpu, n, index % b, 0));
    }
  }

  /** The descriptors of a transfer are those of its pages, and the reverse
      transfer is the same list of pages with the sides exchanged. */
  lemma {:induction false} TransferCarries(w: Worker, groups: seq<Group>, refs: seq<seq<Ref>>, gpu: seq<nat>,
                                           cpu: seq<nat>)
    requires w.Valid() && Listed(groups, refs, gpu, cpu, w.region.blocksPerChunk)
    requires forall g :: 0 <= g < |refs| ==> AllIn(w, refs[g])
    ensures Fits(groups, refs, GpuSide(w), CpuSide(w), gpu, cpu) && Fits(groups, refs, CpuSide(w), GpuSide(w), cpu, gpu)
    ensures Carries(w, PagesOf(groups, refs, gpu, cpu, w.region.blocksPerChunk),
                    AllOps(Direct, groups, refs, GpuSide(w), CpuSide(w), gpu, cpu),
                    AllOps(Direct, groups, refs, CpuSide(w), GpuSide(w), cpu, gpu))
  {
    forall g | 0 <= g < |refs|
      ensures RefsIn(refs[g], GpuSide(w), CpuSide(w)) && RefsIn(refs[g], CpuSide(w), GpuSide(w))
    {
      SidesFit(w, refs[g]);
    }
    if groups != [] {
      hide Carries, LastOps, GroupPages, RefsIn, AllIn, Worker.Valid;
      var front, refsFront, b := groups[..|groups| - 1], refs[..|refs| - 1], w.region.blocksPerChunk;
      TransferCarries(w, front, refsFront, gpu, cpu);
      LastCarries(w, groups, refs, gpu, cpu);
      CarriesMore(w, PagesOf(front, refsFront, gpu, cpu, b),
                  AllOps(Direct, front, refsFront, GpuSide(w), CpuSide(w), gpu, cpu),
                  AllOps(Direct, front, refsFront, CpuSide(w), GpuSide(w), cpu, gpu),
                  LastPages(groups, refs, gpu, cpu, b),
                  LastOps(Direct, groups, refs, GpuSide(w), CpuSide(w), gpu, cpu),
                  LastOps(Direct, groups, refs, CpuSide(w), GpuSide(w), cpu, gpu));
    }
  }

  lemma LastCarries(w: Worker, groups: seq<Group>, refs: seq<seq<Ref>>, gpu: seq<nat>, cpu: seq<nat>)
    requires w.Valid() && Listed(groups, refs, gpu, cpu, w.region.blocksPerChunk) && groups != []
    requires forall g :: 0 <= g < |refs| ==> AllIn(w, refs[g])
    requires Fits(groups, refs, GpuSide(w), CpuSide(w), gpu, cpu) && Fits(groups, refs, CpuSide(w), GpuSide(w), cpu, gpu)
    ensures Carries(w, LastPages(groups, refs, gpu, cpu, w.region.blocksPerChunk),
                    LastOps(Direct, groups, refs, GpuSide(w), CpuSide(w), gpu, cpu),
                    LastOps(Direct, groups, refs, CpuSide(w), GpuSide(w), cpu, gpu))
  {
    hide GroupPages, GroupOps, RefsIn, Worker.Valid;
    var last, b := groups[|groups| - 1], w.region.blocksPerChunk;
    if last.size > 0 {
      GroupCarries(w, refs[|refs| - 1], |groups| - 1, last.index, last.size, LastGpu(groups, gpu),
                   LastCpu(groups, cpu, b));
      assert LastGpu(groups, gpu) == LastBlocks(groups, GpuSide(w), gpu);
      assert LastCpu(groups, cpu, b) == LastBlocks(groups, CpuSide(w), cpu);
    }
  }

  // ---- what each page is ----

  /** Where page `p` comes from: block `logical` of its group is the slot
      `logical % b` of the chunk that holds logical blocks of its quotient. */
  ghost predicate Placed(groups: seq<Group>, refs: seq<seq<Ref>>, gpu: seq<nat>, cpu: seq<nat>, b: nat, p: Page)
    requires Listed(groups, refs, gpu, cpu, b)
  {
    && p.group < |groups| && p.ref in refs[p.group]
    && var g := groups[p.group];
       var firstGpu, firstCpu := Used(groups[..p.group], 1), Used(groups[..p.group], b);
       && g.index <= p.logical < g.index + g.size
       && firstGpu + (p.logical - g.index) < |gpu| && p.gpuBlock == gpu[firstGpu + (p.logical - g.index)]
       && 0 <= p.logical / b - g.index / b < Taken(g, b) && firstCpu + Taken(g, b) <= |cpu|
       && p.chunk == cpu[firstCpu + (p.logical / b - g.index / b)] && p.sub == p.logical % b
  }

  lemma RefPlaced(ref: Ref, group: nat, index: nat, n: nat, gpu: seq<nat>, cpu: seq<nat>, b: nat, i: nat)
    requires b > 0 && n <= |gpu| && index % b + n <= |cpu| * b && i < n
    ensures var p := RefPages(ref, group, index, n, gpu, cpu, b)[i];
            && p.ref == ref && p.group == group && p.logical == index + i && p.gpuBlock == gpu[i]
            && 0 <= p.logical / b - index / b < |cpu| && p.chunk == cpu[p.logical / b - index / b]
            && p.sub == p.logical % b
  {
    hide RefPages;
    RefPageAt(ref, group, index, n, gpu, cpu, b, i);
    LogicalSlot(index, i, b);
  }

  lemma RefPageAt(ref: Ref, group: nat, index: nat, n: nat, gpu: seq<nat>, cpu: seq<nat>, b: nat, i: nat)
    requires b > 0 && n <= |gpu| && index % b + n <= |cpu| * b && i < n
    ensures (index % b + i) / b < |cpu|
    ensures RefPages(ref, group, index, n, gpu, cpu, b)[i]
            == Page(ref, group, index + i, gpu[i], cpu[(index % b + i) / b], (index % b + i) % b)
  {
    QuotientBelow(index % b + i, |cpu|, b);
  }

  lemma {:induction false} GroupPlaced(refs: seq<Ref>, group: nat, index: nat, n: nat, gpu: seq<nat>, cpu: seq<nat>,
                                       b: nat)
    requires b > 0 && n <= |gpu| && index % b + n <= |cpu| * b && |cpu| == CeilDiv(n + index % b, b)
    ensures forall p :: p in GroupPages(refs, group, index, n, gpu, cpu, b) ==>
              && p.ref in refs && p.group == group && index <= p.logical < index + n
              && p.gpuBlock == gpu[p.logical - index]
              && 0 <= p.logical / b - index / b < |cpu| && p.chunk == cpu[p.logical / b - index / b]
              && p.sub == p.logical % b
  {
    if refs != [] {
      var front, last := refs[..|refs| - 1], refs[|refs| - 1];
      GroupPlaced(front, group, index, n, gpu, cpu, b);
      var pages := RefPages(last, group, index, n, gpu, cpu, b);
      assert last in refs && forall ref :: ref in front ==> ref in refs;
      hide RefPages;
      forall i | 0 <= i < n
        ensures var p := pages[i];
                && p.ref == last && p.group == group && index <= p.logical < index + n
                && p.gpuBlock == gpu[p.logical - index]
                && 0 <= p.logical / b - index / b < |cpu| && p.chunk == cpu[p.logical / b - index / b]
                && p.sub == p.logical % b
      {
        RefPlaced(last, group, index, n, gpu, cpu, b, i);
      }
    }
  }

  lemma {:induction false} TransferPlaced(groups: seq<Group>, refs: seq<seq<Ref>>, gpu: seq<nat>, cpu: seq<nat>, b: nat)
    requires Listed(groups, refs, gpu, cpu, b)
    ensures forall p :: p in PagesOf(groups, refs, gpu, cpu, b) ==> Placed(groups, refs, gpu, cpu, b, p)
  {
    hide Placed, GroupPages;
    if groups != [] {
      var front, refsFront := groups[..|groups| - 1], refs[..|refs| - 1];
      TransferPlaced(front, refsFront, gpu, cpu, b);
      forall p | p in PagesOf(front, refsFront, gpu, cpu, b) ensures Placed(groups, refs, gpu, cpu, b, p) {
        StillPlaced(groups, refs, gpu, cpu, b, p);
      }
      LastPlaced(groups, refs, gpu, cpu, b);
    }
  }

  lemma StillPlaced(groups: seq<Group>, refs: seq<seq<Ref>>, gpu: seq<nat>, cpu: seq<nat>, b: nat, p: Page)
    requires Listed(groups, refs, gpu, cpu, b) && groups != []
    requires Placed(groups[..|groups| - 1], refs[..|refs| - 1], gpu, cpu, b, p)
    ensures Placed(groups, refs, gpu, cpu, b, p)
  {
    hide Used, Taken;
    var front := groups[..|groups| - 1];
    assert groups[..p.group] == front[..p.group] && groups[p.group] == front[p.group];
  }

  lemma LastPlaced(groups: seq<Group>, refs: seq<seq<Ref>>, gpu: seq<nat>, cpu: seq<nat>, b: nat)
    requires Listed(groups, refs, gpu, cpu, b) && groups != []
    ensures var last, g := groups[|groups| - 1], |groups| - 1;
            last.size > 0 ==>
              var firstGpu, firstCpu := LastGpu(groups, gpu), LastCpu(groups, cpu, b);
              forall p :: p in GroupPages(refs[g], g, last.index, last.size, firstGpu, firstCpu, b) ==>
                Placed(groups, refs, gpu, cpu, b, p)
  {
    var last := groups[|groups| - 1];
    if last.size > 0 {
      GroupPlaced(refs[|refs| - 1], |groups| - 1, last.index, last.size, LastGpu(groups, gpu), LastCpu(groups, cpu, b),
                  b);
    }
  }

  // ---- no page occurs twice ----

  predicate SameBlock(p: Page, q: Page) {
    p.group == q.group && p.logical == q.logical && p.ref.tensor == q.ref.tensor
  }

  ghost predicate NoneTwice(pages: seq<Page>) {
    forall i, j :: 0 <= i < j < |pages| ==> !SameBlock(pages[i], pages[j])
  }

  predicate OwnTensors(refs: seq<Ref>) {
    forall i, j :: 0 <= i < j < |refs| ==> refs[i].tensor != refs[j].tensor
  }

  lemma NoneTwiceMore(p1: seq<Page>, p2: seq<Page>)
    requires NoneTwice(p1) && NoneTwice(p2)
    requires forall p, q :: p in p1 && q in p2 ==> !SameBlock(p, q)
    ensures NoneTwice(p1 + p2)
  {}

  lemma {:induction false} GroupNoneTwice(refs: seq<Ref>, group: nat, index: nat, n: nat, gpu: seq<nat>, cpu: seq<nat>,
                                          b: nat)
    requires b > 0 && n <= |gpu| && index % b + n <= |cpu| * b && |cpu| == CeilDiv(n + index % b, b) && OwnTensors(refs)
    ensures NoneTwice(GroupPages(refs, group, index, n, gpu, cpu, b))
  {
    if refs != [] {
      var front, last := refs[..|refs| - 1], refs[|refs| - 1];
      var before, pages := GroupPages(front, group, index, n, gpu, cpu, b), RefPages(last, group, index, n, gpu, cpu, b);
      GroupNoneTwice(front, group, index, n, gpu, cpu, b);
      GroupPlaced(front, group, index, n, gpu, cpu, b);
      assert forall i :: 0 <= i < n ==> pages[i].ref == last && pages[i].logical == index + i;
      hide RefPages, GroupPages;
      forall p, q | p in before && q in pages ensures !SameBlock(p, q) {
        assert p.ref in front;
      }
      NoneTwiceMore(before, pages);
    }
  }

  lemma {:induction false} TransferNoneTwice(groups: seq<Group>, refs: seq<seq<Ref>>, gpu: seq<nat>, cpu: seq<nat>,
                                             b: nat)
    requires Listed(groups, refs, gpu, cpu, b) && forall g :: 0 <= g < |refs| ==> OwnTensors(refs[g])
    ensures NoneTwice(PagesOf(groups, refs, gpu, cpu, b))
  {
    if groups != [] {
      var front, refsFront, last := groups[..|groups| - 1], refs[..|refs| - 1], groups[|groups| - 1];
      TransferNoneTwice(front, refsFront, gpu, cpu, b);
      TransferPlaced(front, refsFront, gpu, cpu, b);
      if last.size > 0 {
        var lastGpu, lastCpu := LastGpu(groups, gpu), LastCpu(groups, cpu, b);
        GroupPlaced(refs[|refs| - 1], |groups| - 1, last.index, last.size, lastGpu, lastCpu, b);
        GroupNoneTwice(refs[|refs| - 1], |groups| - 1, last.index, last.size, lastGpu, lastCpu, b);
        NoneTwiceMore(PagesOf(front, refsFront, gpu, cpu, b),
                      GroupPages(refs[|refs| - 1], |groups| - 1, last.index, last.size, lastGpu, lastCpu, b));
      }
    }
  }

  // ---- memory ----

  predicate PagesIn(w: Worker, pages: seq<Page>) {
    forall i :: 0 <= i < |pages| ==> PageIn(w, pages[i])
  }

  function StoreCopies(w: Worker, pages: seq<Page>): (r: seq<Copy>)
    requires PagesIn(w, pages)
    ensures |r| == |pages|
  {
    seq(|pages|, i requires 0 <= i < |pages| => StoreCopy(w, pages[i]))
  }

  function LoadCopies(w: Worker, pages: seq<Page>): (r: seq<Copy>)
    requires PagesIn(w, pages)
    ensures |r| == |pages|
  {
    seq(|pages|, i requires 0 <= i < |pages| => LoadCopy(w, pages[i]))
  }

  /** A page of the GPU lies in its tensor, and no cell overlaps it. */
  lemma GpuPageApart(w: Worker, p: Page)
    requires w.Valid() && PageIn(w, p)
    ensures var t := w.gpu[p.ref.tensor];
            t.base <= GpuAddress(w, p) && GpuAddress(w, p) + p.ref.size <= t.base + w.gpuBlocks * t.stride
    ensures Disjoint(GpuAddress(w, p), p.ref.size, w.region.base, w.region.numBlocks * w.region.rowStride)
  {
    InRows(p.gpuBlock, w.gpuBlocks, w.gpu[p.ref.tensor].stride, p.ref.size);
  }

  lemma InRows(row: nat, rows: nat, stride: nat, size: nat)
    requires row < rows && size <= stride
    ensures row * stride + size <= rows * stride
  {
    MulMonotone(row + 1, rows, stride);
    MulAdd(row, 1, stride);
  }

  lemma CpuPageInRegion(w: Worker, p: Page)
    requires w.Valid() && PageIn(w, p)
    ensures w.region.base <= CpuAddress(w, p)
    ensures CpuAddress(w, p) + p.ref.size <= w.region.base + w.region.numBlocks * w.region.rowStride
  {
    CellInRegion(w.region, CellOf(w, p));
  }

  /** Pages of different GPU blocks or tensors do not overlap. */
  lemma GpuPagesDisjoint(w: Worker, p: Page, q: Page)
    requires w.Valid() && PageIn(w, p) && PageIn(w, q)
    requires p.gpuBlock != q.gpuBlock || p.ref.tensor != q.ref.tensor
    ensures Disjoint(GpuAddress(w, p), p.ref.size, GpuAddress(w, q), q.ref.size)
  {
    GpuPageApart(w, p);
    GpuPageApart(w, q);
    if p.ref.tensor == q.ref.tensor {
      OtherRow(p.gpuBlock, q.gpuBlock, w.gpu[p.ref.tensor].stride);
    }
  }

  // ---- copies of others ----

  /** A copy that leaves a cell alone: it writes outside the region, or inside
      another cell. */
  ghost predicate Spares(region: Region, cell: Cell, c: Copy) {
    || Disjoint(c.dst, c.size, region.base, region.numBlocks * region.rowStride)
    || exists d: Cell :: OtherCell(region, cell, d, c)
  }

  predicate OtherCell(region: Region, cell: Cell, d: Cell, c: Copy) {
    && CellIn(region, d) && d != cell
    && CellStart(region, d) <= c.dst && c.dst + c.size <= CellStart(region, d) + region.pages[d.tensor]
  }

  /** Loads of any worker leave a cell alone, and stores of pages of other cells. */
  lemma OthersSpare(w: Worker, v: Worker, p: Page, q: Page)
    requires w.region == v.region && v.Valid() && PageIn(v, q) && TensorIn(w, p.ref)
    ensures Spares(w.region, CellOf(w, p), LoadCopy(v, q))
    ensures CellOf(v, q) != CellOf(w, p) ==> Spares(w.region, CellOf(w, p), StoreCopy(v, q))
  {
    hide GpuAddress, CellStart;
    GpuPageApart(v, q);
    if CellOf(v, q) != CellOf(w, p) {
      assert OtherCell(w.region, CellOf(w, p), CellOf(v, q), StoreCopy(v, q));
    }
  }

  lemma SparedByte(region: Region, cell: Cell, c: Copy, x: nat)
    requires region.Valid() && CellIn(region, cell) && x < region.pages[cell.tensor] && Spares(region, cell, c)
    ensures !c.Writes(CellStart(region, cell) + x)
  {
    CellInRegion(region, cell);
    if d: Cell :| OtherCell(region, cell, d, c) {
      CellsDisjoint(region, cell, d);
    }
  }

  lemma ForeignKeep(region: Region, cell: Cell, foreign: seq<Copy>, m: Memory, x: nat)
    requires region.Valid() && CellIn(region, cell) && x < region.pages[cell.tensor]
    requires forall c :: c in foreign ==> Spares(region, cell, c)
    ensures ApplyAll(m, foreign)(CellStart(region, cell) + x) == m(CellStart(region, cell) + x)
  {
    forall c | c in foreign ensures !c.Writes(CellStart(region, cell) + x) {
      SparedByte(region, cell, c, x);
    }
    UntouchedOutside(m, foreign);
  }

  /** A copy that goes on during a store or a load of `p` and disturbs neither
      its cell nor its page on the GPU. */
  ghost predicate Harmless(w: Worker, p: Page, c: Copy)
    requires TensorIn(w, p.ref)
  {
    Spares(w.region, CellOf(w, p), c) && Disjoint(c.dst, c.size, GpuAddress(w, p), p.ref.size)
  }

  /** No two pages share a cell. */
  ghost predicate OwnCells(w: Worker, pages: seq<Page>) {
    forall i, j :: 0 <= i < j < |pages| ==> CellOf(w, pages[i]) != CellOf(w, pages[j])
  }

  /** No two pages share a page of the GPU. */
  ghost predicate OwnGpuPages(pages: seq<Page>) {
    forall i, j :: 0 <= i < j < |pages| ==>
      pages[i].gpuBlock != pages[j].gpuBlock || pages[i].ref.tensor != pages[j].ref.tensor
  }

  /** A store leaves its pages on the GPU alone, and a page is written to its
      cell by its own copy only. */
  lemma StoreWriter(w: Worker, pages: seq<Page>, i: nat, j: nat, x: nat)
    requires w.Valid() && PagesIn(w, pages) && OwnCells(w, pages) && i < |pages| && j < |pages|
    requires x < pages[i].ref.size
    ensures !StoreCopy(w, pages[j]).Writes(GpuAddress(w, pages[i]) + x)
    ensures StoreCopy(w, pages[j]).Writes(CpuAddress(w, pages[i]) + x) ==> i == j
  {
    hide GpuAddress, CellStart;
    GpuPageApart(w, pages[i]);
    CpuPageInRegion(w, pages[j]);
    if i != j {
      assert CellOf(w, pages[i]) != CellOf(w, pages[j]);
      CellsDisjoint(w.region, CellOf(w, pages[i]), CellOf(w, pages[j]));
    }
  }

  /** A load leaves the cells alone, and writes each page on the GPU once. */
  lemma LoadWriter(w: Worker, pages: seq<Page>, i: nat, j: nat, x: nat)
    requires w.Valid() && PagesIn(w, pages) && OwnGpuPages(pages) && i < |pages| && j < |pages|
    requires x < pages[i].ref.size
    ensures !LoadCopy(w, pages[j]).Writes(CpuAddress(w, pages[i]) + x)
    ensures LoadCopy(w, pages[j]).Writes(GpuAddress(w, pages[i]) + x) ==> i == j
  {
    hide GpuAddress, CellStart;
    GpuPageApart(w, pages[j]);
    CpuPageInRegion(w, pages[i]);
    if i != j {
      GpuPagesDisjoint(w, pages[i], pages[j]);
    }
  }

  lemma HarmlessByte(w: Worker, p: Page, c: Copy, x: nat)
    requires w.Valid() && PageIn(w, p) && Harmless(w, p, c) && x < p.ref.size
    ensures !c.Writes(CpuAddress(w, p) + x) && !c.Writes(GpuAddress(w, p) + x)
  {
    hide GpuAddress, CellStart, Spares;
    SparedByte(w.region, CellOf(w, p), c, x);
  }

  /** A stored page is in its cell, although others copied at the same time. */
  lemma StoreLands(w: Worker, pages: seq<Page>, others: seq<Copy>, all: seq<Copy>, m: Memory, i: nat, x: nat)
    requires w.Valid() && PagesIn(w, pages) && OwnCells(w, pages) && i < |pages| && x < pages[i].ref.size
    requires Mixes(all, StoreCopies(w, pages), others) && forall c :: c in others ==> Harmless(w, pages[i], c)
    ensures ApplyAll(m, all)(CpuAddress(w, pages[i]) + x) == m(GpuAddress(w, pages[i]) + x)
  {
    hide CpuAddress, GpuAddress, Harmless, OwnCells, Worker.Valid, ApplyAll;
    var p, cs := pages[i], StoreCopies(w, pages);
    var to, from := CpuAddress(w, p) + x, GpuAddress(w, p) + x;
    forall d | d in all ensures !d.Writes(from) && (d.Writes(to) ==> d == cs[i]) {
      if d in others {
        HarmlessByte(w, p, d, x);
      } else {
        var j :| 0 <= j < |cs| && cs[j] == d;
        StoreWriter(w, pages, i, j, x);
      }
    }
    assert cs[i] in cs && cs[i].Writes(to);
    OneValue(m, all, to, m(from));
  }

  /** A loaded page is on the GPU, although others copied at the same time. */
  lemma LoadLands(w: Worker, pages: seq<Page>, others: seq<Copy>, all: seq<Copy>, m: Memory, i: nat, x: nat)
    requires w.Valid() && PagesIn(w, pages) && OwnGpuPages(pages) && i < |pages| && x < pages[i].ref.size
    requires Mixes(all, LoadCopies(w, pages), others) && forall c :: c in others ==> Harmless(w, pages[i], c)
    ensures ApplyAll(m, all)(GpuAddress(w, pages[i]) + x) == m(CpuAddress(w, pages[i]) + x)
  {
    hide CpuAddress, GpuAddress, Harmless, OwnGpuPages, Worker.Valid, ApplyAll;
    var p, cs := pages[i], LoadCopies(w, pages);
    var to, from := GpuAddress(w, p) + x, CpuAddress(w, p) + x;
    forall d | d in all ensures !d.Writes(from) && (d.Writes(to) ==> d == cs[i]) {
      if d in others {
        HarmlessByte(w, p, d, x);
      } else {
        var j :| 0 <= j < |cs| && cs[j] == d;
        LoadWriter(w, pages, i, j, x);
      }
    }
    assert cs[i] in cs && cs[i].Writes(to);
    OneValue(m, all, to, m(from));
  }

  /** What other workers do during the store of a page, until it is loaded, and
      during the load. Only in between they may use its block of the GPU. */
  datatype Meanwhile = Meanwhile(storing: seq<Copy>, between: seq<Copy>, loading: seq<Copy>) {
    ghost predicate DoNoHarm(w: Worker, p: Page, q: Page)
      requires TensorIn(w, p.ref) && TensorIn(w, q.ref)
    {
      && (forall c :: c in storing ==> Harmless(w, p, c))
      && (forall c :: c in between ==> Spares(w.region, CellOf(w, p), c))
      && (forall c :: c in loading ==> Harmless(w, q, c))
    }
  }

  /** A page stored into a cell and loaded from it arrives unchanged, at whatever
      GPU block, although other transfers go on all the time. */
  lemma StoreThenLoad(w: Worker, stored: seq<Page>, loaded: seq<Page>, others: Meanwhile, stores: seq<Copy>,
                      loads: seq<Copy>, m: Memory, i: nat, j: nat, x: nat)
    requires w.Valid() && PagesIn(w, stored) && PagesIn(w, loaded) && OwnCells(w, stored) && OwnGpuPages(loaded)
    requires i < |stored| && j < |loaded| && stored[i].ref == loaded[j].ref && x < stored[i].ref.size
    requires CellOf(w, stored[i]) == CellOf(w, loaded[j]) && others.DoNoHarm(w, stored[i], loaded[j])
    requires Mixes(stores, StoreCopies(w, stored), others.storing) && Mixes(loads, LoadCopies(w, loaded), others.loading)
    ensures var after := ApplyAll(ApplyAll(ApplyAll(m, stores), others.between), loads);
            after(GpuAddress(w, loaded[j]) + x) == m(GpuAddress(w, stored[i]) + x)
  {
    hide GpuAddress, CellStart, Harmless, OwnCells, OwnGpuPages, Mixes, Spares, ApplyAll;
    StoreLands(w, stored, others.storing, stores, m, i, x);
    var m1 := ApplyAll(m, stores);
    ForeignKeep(w.region, CellOf(w, stored[i]), others.between, m1, x);
    LoadLands(w, loaded, others.loading, loads, ApplyAll(m1, others.between), j, x);
  }

  // ---- transfers of whole lists ----

  /** Chunk number `c` of a group, counted from its first, and its place in the list. */
  function ChunkAt(groups: seq<Group>, g: nat, b: nat, c: nat): nat
    requires b > 0 && g < |groups|
  {
    Used(groups[..g], b) + c
  }

  function LogicalChunk(groups: seq<Group>, g: nat, b: nat, c: nat): nat
    requires b > 0 && g < |groups|
  {
    groups[g].index / b + c
  }

  /** The listed chunks are those that hold the logical blocks of the groups. */
  ghost predicate HomedBy(groups: seq<Group>, cpu: seq<nat>, b: nat, home: (nat, nat) -> nat)
    requires b > 0
  {
    forall g: nat, c: nat :: g < |groups| && c < Taken(groups[g], b) && ChunkAt(groups, g, b, c) < |cpu| ==>
      cpu[ChunkAt(groups, g, b, c)] == home(g, LogicalChunk(groups, g, b, c))
  }

  /** Every logical block of a group has one home: a chunk and a slot in it. */
  lemma PageAtHome(groups: seq<Group>, refs: seq<seq<Ref>>, gpu: seq<nat>, cpu: seq<nat>, b: nat,
                   home: (nat, nat) -> nat, p: Page)
    requires Listed(groups, refs, gpu, cpu, b) && HomedBy(groups, cpu, b, home) && Placed(groups, refs, gpu, cpu, b, p)
    ensures p.chunk == home(p.group, p.logical / b) && p.sub == p.logical % b
  {
    hide Used, Taken;
    var c := p.logical / b - groups[p.group].index / b;
    assert ChunkAt(groups, p.group, b, c) < |cpu|;
    assert LogicalChunk(groups, p.group, b, c) == p.logical / b;
  }

  ghost predicate Injective(home: (nat, nat) -> nat) {
    forall g, c, h, d :: home(g, c) == home(h, d) ==> g == h && c == d
  }

  /** Two pages in one slot of one chunk are the same block. */
  lemma SameHome(p: Page, q: Page, b: nat, home: (nat, nat) -> nat)
    requires b > 0 && Injective(home)
    requires p.chunk == home(p.group, p.logical / b) && p.sub == p.logical % b
    requires q.chunk == home(q.group, q.logical / b) && q.sub == q.logical % b
    requires p.chunk == q.chunk && p.sub == q.sub
    ensures p.group == q.group && p.logical == q.logical
  {
    assert home(p.group, p.logical / b) == home(q.group, q.logical / b);
    DivMod(p.logical, b);
    DivMod(q.logical, b);
  }

  lemma HomesGiveCells(w: Worker, groups: seq<Group>, refs: seq<seq<Ref>>, gpu: seq<nat>, cpu: seq<nat>,
                       home: (nat, nat) -> nat)
    requires w.Valid() && Listed(groups, refs, gpu, cpu, w.region.blocksPerChunk)
    requires forall g :: 0 <= g < |refs| ==> OwnTensors(refs[g])
    requires HomedBy(groups, cpu, w.region.blocksPerChunk, home) && Injective(home)
    ensures OwnCells(w, PagesOf(groups, refs, gpu, cpu, w.region.blocksPerChunk))
  {
    var b := w.region.blocksPerChunk;
    var pages := PagesOf(groups, refs, gpu, cpu, b);
    TransferPlaced(groups, refs, gpu, cpu, b);
    TransferNoneTwice(groups, refs, gpu, cpu, b);
    hide PagesOf, Placed, HomedBy, Injective, Used, OwnTensors;
    forall i, j | 0 <= i < j < |pages| ensures CellOf(w, pages[i]) != CellOf(w, pages[j]) {
      var p, q := pages[i], pages[j];
      assert p in pages && q in pages && !SameBlock(p, q);
      PageAtHome(groups, refs, gpu, cpu, b, home, p);
      PageAtHome(groups, refs, gpu, cpu, b, home, q);
      if p.chunk == q.chunk && p.sub == q.sub {
        SameHome(p, q, b, home);
      }
    }
  }

  lemma DistinctGpuBlocks(groups: seq<Group>, refs: seq<seq<Ref>>, gpu: seq<nat>, cpu: seq<nat>, b: nat)
    requires Listed(groups, refs, gpu, cpu, b) && Distinct(gpu)
    requires forall g :: 0 <= g < |refs| ==> OwnTensors(refs[g])
    ensures OwnGpuPages(PagesOf(groups, refs, gpu, cpu, b))
  {
    var pages := PagesOf(groups, refs, gpu, cpu, b);
    TransferPlaced(groups, refs, gpu, cpu, b);
    TransferNoneTwice(groups, refs, gpu, cpu, b);
    hide PagesOf;
    forall i, j | 0 <= i < j < |pages|
      ensures pages[i].gpuBlock != pages[j].gpuBlock || pages[i].ref.tensor != pages[j].ref.tensor
    {
      var p, q := pages[i], pages[j];
      assert p in pages && q in pages && !SameBlock(p, q);
      if p.group == q.group && p.logical == q.logical {
        assert p.ref.tensor != q.ref.tensor;
      } else {
        GpuIndicesDiffer(groups, p.group, p.logical - groups[p.group].index, q.group, q.logical - groups[q.group].index);
      }
    }
  }

  /** Different blocks of a transfer have different places in the GPU list. */
  lemma GpuIndicesDiffer(groups: seq<Group>, g: nat, i: nat, h: nat, j: nat)
    requires g < |groups| && h < |groups| && i < groups[g].size && j < groups[h].size && (g != h || i != j)
    ensures Used(groups[..g], 1) + i != Used(groups[..h], 1) + j
  {
    if g < h {
      LaterBegins(groups, g, h);
    } else if h < g {
      LaterBegins(groups, h, g);
    }
  }

  lemma {:induction false} LaterBegins(groups: seq<Group>, g: nat, h: nat)
    requires g < h <= |groups|
    ensures Used(groups[..g], 1) + groups[g].size <= Used(groups[..h], 1)
  {
    assert groups[..h][..h - 1] == groups[..h - 1];
    assert groups[..h][|groups[..h]| - 1] == groups[h - 1];
    if g < h - 1 {
      LaterBegins(groups, g, h - 1);
    }
  }

  /** Store some groups and load a part of the same logical blocks, from the
      middle of a chunk if need be, while others copy all the time: every byte of
      a block that was stored is back, in the GPU block it was loaded to. */
  lemma TransfersRoundTrip(w: Worker, refs: seq<seq<Ref>>, home: (nat, nat) -> nat,
                           stored: seq<Group>, gpuFrom: seq<nat>, cpuTo: seq<nat>,
                           loaded: seq<Group>, gpuTo: seq<nat>, cpuFrom: seq<nat>,
                           others: Meanwhile, stores: seq<Copy>, loads: seq<Copy>, m: Memory, p: Page, q: Page, x: nat)
    requires w.Valid() && Injective(home) && Distinct(gpuTo)
    requires forall g :: 0 <= g < |refs| ==> AllIn(w, refs[g]) && OwnTensors(refs[g])
    requires Listed(stored, refs, gpuFrom, cpuTo, w.region.blocksPerChunk)
    requires Listed(loaded, refs, gpuTo, cpuFrom, w.region.blocksPerChunk)
    requires HomedBy(stored, cpuTo, w.region.blocksPerChunk, home)
    requires HomedBy(loaded, cpuFrom, w.region.blocksPerChunk, home)
    requires PagesIn(w, PagesOf(stored, refs, gpuFrom, cpuTo, w.region.blocksPerChunk))
    requires PagesIn(w, PagesOf(loaded, refs, gpuTo, cpuFrom, w.region.blocksPerChunk))
    requires p in PagesOf(stored, refs, gpuFrom, cpuTo, w.region.blocksPerChunk)
    requires q in PagesOf(loaded, refs, gpuTo, cpuFrom, w.region.blocksPerChunk)
    requires p.group == q.group && p.logical == q.logical && p.ref == q.ref && x < p.ref.size
    requires TensorIn(w, p.ref) && others.DoNoHarm(w, p, q)
    ensures forall g :: 0 <= g < |refs| ==>
              RefsIn(refs[g], GpuSide(w), CpuSide(w)) && RefsIn(refs[g], CpuSide(w), GpuSide(w))
    ensures Mixes(stores, AllOps(Direct, stored, refs, GpuSide(w), CpuSide(w), gpuFrom, cpuTo), others.storing)
            && Mixes(loads, AllOps(Direct, loaded, refs, CpuSide(w), GpuSide(w), cpuFrom, gpuTo), others.loading) ==>
              ApplyAll(ApplyAll(ApplyAll(m, stores), others.between), loads)(GpuAddress(w, q) + x)
              == m(GpuAddress(w, p) + x)
  {
    hide PagesOf, AllOps, Placed, HomedBy, Harmless, Meanwhile.DoNoHarm, OwnCells, OwnGpuPages, Used, Injective,
        Distinct, OwnTensors, GpuAddress, CpuAddress, Worker.Valid, ApplyAll, StoreCopies, LoadCopies, Mixes;
    var b := w.region.blocksPerChunk;
    var from, to := PagesOf(stored, refs, gpuFrom, cpuTo, b), PagesOf(loaded, refs, gpuTo, cpuFrom, b);
    TransferCopies(w, stored, refs, gpuFrom, cpuTo);
    TransferCopies(w, loaded, refs, gpuTo, cpuFrom);
    HomesGiveCells(w, stored, refs, gpuFrom, cpuTo, home);
    DistinctGpuBlocks(loaded, refs, gpuTo, cpuFrom, b);
    TransferPlaced(stored, refs, gpuFrom, cpuTo, b);
    TransferPlaced(loaded, refs, gpuTo, cpuFrom, b);
    PageAtHome(stored, refs, gpuFrom, cpuTo, b, home, p);
    PageAtHome(loaded, refs, gpuTo, cpuFrom, b, home, q);
    var i :| 0 <= i < |from| && from[i] == p;
    var j :| 0 <= j < |to| && to[j] == q;
    if Mixes(stores, StoreCopies(w, from), others.storing) && Mixes(loads, LoadCopies(w, to), others.loading) {
      StoreThenLoad(w, from, to, others, stores, loads, m, i, j, x);
    }
  }

  lemma TransferCopies(w: Worker, groups: seq<Group>, refs: seq<seq<Ref>>, gpu: seq<nat>, cpu: seq<nat>)
    requires w.Valid() && Listed(groups, refs, gpu, cpu, w.region.blocksPerChunk)
    requires forall g :: 0 <= g < |refs| ==> AllIn(w, refs[g])
    requires PagesIn(w, PagesOf(groups, refs, gpu, cpu, w.region.blocksPerChunk))
    ensures Fits(groups, refs, GpuSide(w), CpuSide(w), gpu, cpu) && Fits(groups, refs, CpuSide(w), GpuSide(w), cpu, gpu)
    ensures var pages := PagesOf(groups, refs, gpu, cpu, w.region.blocksPerChunk);
            && AllOps(Direct, groups, refs, GpuSide(w), CpuSide(w), gpu, cpu) == StoreCopies(w, pages)
            && AllOps(Direct, groups, refs, CpuSide(w), GpuSide(w), cpu, gpu) == LoadCopies(w, pages)
  {
    TransferCarries(w, groups, refs, gpu, cpu);
  }

  // ---- seams and views ----

  /** With seams at row starts, or none, no copy of any page crosses one. */
  lemma PageNeverStraddles(w: Worker, p: Page, chunk: nat)
    requires w.Valid() && PageIn(w, p) && chunk > 0
    requires chunk % w.region.rowStride == 0 || w.region.numBlocks * w.region.rowStride <= chunk
    ensures w.region.base <= CpuAddress(w, p)
    ensures !Straddles(chunk, w.region.numBlocks * w.region.rowStride, CpuAddress(w, p) - w.region.base, p.ref.size)
  {
    CellInRegion(w.region, CellOf(w, p));
    PartOfRow(w.region.rowStride, w.region.numBlocks, CpuAddress(w, p) - w.region.base, w.region.pages[p.ref.tensor],
        p.ref.size);
    hide InOneRow, Straddles, CellStart;
    AlignedNeverStraddles(chunk, w.region.rowStride, w.region.numBlocks, CpuAddress(w, p) - w.region.base, p.ref.size);
  }

  lemma PartOfRow(rowStride: nat, rows: nat, at: nat, size: nat, part: nat)
    requires rowStride > 0 && InOneRow(rowStride, rows, at, size) && part <= size
    ensures InOneRow(rowStride, rows, at, part)
  {}

  /** The views a worker is handed, one for each tensor, are the parts of its rows. */
  lemma ViewsAreParts(views: WorkerViews, w: Worker, t: nat)
    requires views.Valid() && t < |views.views| == |w.region.pages|
    requires views.rank == w.rank && views.cpuPageSize == w.region.cpuPageSize
    requires forall u :: 0 <= u < |w.region.pages| ==> views.widths[u] == w.region.pages[u] * w.region.blocksPerChunk
    ensures CpuTensor(w, t).base == w.region.base + views.views[t]
  {
    BeforeScaled(w.region.pages, views.widths, w.region.blocksPerChunk, t);
  }
}
