/** The canonical layout from end to end: all ranks store, other transfers take
    place, and one rank loads. */
module SharedPages {
  import opened Arithmetic
  import opened Sequences
  import opened CopyEngine
  import opened Layout
  import opened Addressing
  import opened Canonical
  import opened Transfers
  import opened RoundTrip
  import opened Registration
  import opened Seams

  /** One rank: its tensors on the GPU, the shared region, and what each layer
      makes of its pages. */
  datatype Rank = Rank(worker: Worker, refs: seq<seq<Ref>>) {
    ghost predicate Valid() {
      && worker.region.Valid() && worker.rank == 0 < worker.region.world && |worker.gpu| == |worker.region.pages|
      && (forall t :: 0 <= t < |worker.gpu| ==>
            Disjoint(worker.gpu[t].base, worker.gpuBlocks * worker.gpu[t].stride, worker.region.base,
                     worker.region.numBlocks * worker.region.rowStride))
      && (forall t, u :: 0 <= t < u < |worker.gpu| ==>
            Disjoint(worker.gpu[t].base, worker.gpuBlocks * worker.gpu[t].stride,
                     worker.gpu[u].base, worker.gpuBlocks * worker.gpu[u].stride))
      && (forall g :: 0 <= g < |refs| ==> OwnTensors(refs[g]))
      && (forall g, ref :: 0 <= g < |refs| && ref in refs[g] ==> RefFits(worker, ref))
    }
  }

  /** The mapped bytes lie in the page of the rank and in the shared page. */
  ghost predicate RefFits(w: Worker, ref: Ref) {
    && TensorIn(w, ref) && ref.mapping.pageSize <= w.region.pages[ref.tensor]
    && forall f :: f in Fragments(ref.mapping.runs) ==>
         f.local + f.size <= w.gpu[ref.tensor].stride && f.canonical + f.size <= ref.mapping.pageSize
  }

  /** A page that fits: block, chunk and slot exist. */
  ghost predicate Fitting(w: Worker, p: Page) {
    && RefFits(w, p.ref) && p.gpuBlock < w.gpuBlocks && p.chunk < w.region.numBlocks && p.sub < w.region.blocksPerChunk
  }

  /** The copy of one fragment of a page. */
  function Piece(w: Worker, p: Page, f: Fragment, store: bool): Copy
    requires TensorIn(w, p.ref)
  {
    FragmentCopy(if store then GpuAddress(w, p) else CpuAddress(w, p),
                 if store then CpuAddress(w, p) else GpuAddress(w, p), f, store)
  }

  /** Whether a rank takes part in page `p`: it loads every page, and stores
      those whose turn is its own. */
  predicate Takes(p: Page, store: bool, b: nat) {
    store ==> Writes(p.ref.mapping, p.chunk * b + p.sub)
  }

  ghost predicate Moved(w: Worker, pages: seq<Page>, store: bool, c: Copy) {
    exists p, f :: p in pages && PieceOf(w, p, f, store, c)
  }

  ghost predicate PieceOf(w: Worker, p: Page, f: Fragment, store: bool, c: Copy) {
    && TensorIn(w, p.ref) && f in Fragments(p.ref.mapping.runs) && Takes(p, store, w.region.blocksPerChunk)
    && c == Piece(w, p, f, store)
  }

  // ---- the descriptors are the pieces of the pages ----

  /** The copies are exactly the fragments of the pages the rank takes part in. */
  ghost predicate MovesExactly(w: Worker, pages: seq<Page>, store: bool, ops: seq<Copy>) {
    forall c :: c in ops <==> Moved(w, pages, store, c)
  }

  lemma MovesMore(w: Worker, p1: seq<Page>, o1: seq<Copy>, p2: seq<Page>, o2: seq<Copy>, store: bool)
    requires MovesExactly(w, p1, store, o1) && MovesExactly(w, p2, store, o2)
    ensures MovesExactly(w, p1 + p2, store, o1 + o2)
  {
    hide PieceOf;
    forall c ensures c in o1 + o2 <==> Moved(w, p1 + p2, store, c) {
      assert Moved(w, p1 + p2, store, c) <==> Moved(w, p1, store, c) || Moved(w, p2, store, c);
    }
  }

  /** The copies of one layer on a store, or on a load. */
  function LayerOps(w: Worker, ref: Ref, index: nat, n: nat, gpu: seq<nat>, cpu: seq<nat>, store: bool): seq<Copy>
    requires RefsIn([ref], GpuSide(w), CpuSide(w)) && RefsIn([ref], CpuSide(w), GpuSide(w)) && n <= |gpu|
    requires index % w.region.blocksPerChunk + n <= |cpu| * w.region.blocksPerChunk
  {
    var skip := index % w.region.blocksPerChunk;
    if store then CanonicalRefOps(ref, GpuSide(w), CpuSide(w), gpu, cpu, n, 0, skip, true)
    else CanonicalRefOps(ref, CpuSide(w), GpuSide(w), cpu, gpu, n, skip, 0, false)
  }

  /** The addresses computed for the blocks are those of their pages. */
  lemma BasesAre(w: Worker, ref: Ref, group: nat, index: nat, n: nat, gpu: seq<nat>, cpu: seq<nat>, at: seq<nat>, k: nat)
    requires w.region.Valid() && TensorIn(w, ref) && n <= |gpu|
    requires index % w.region.blocksPerChunk + n <= |cpu| * w.region.blocksPerChunk
    requires k < |at| && forall j :: 0 <= j < |at| ==> at[j] < n
    ensures var b := w.region.blocksPerChunk;
            var p := RefPages(ref, group, index, n, gpu, cpu, b)[at[k]];
            && p.ref == ref
            && Bases(w.gpu[ref.tensor], 1, gpu, 0, n, at)[k] == GpuAddress(w, p)
            && Bases(CpuTensor(w, ref.tensor), b, cpu, index % b, n, at)[k] == CpuAddress(w, p)
  {
    hide NthSubBlock, CellStart;
    GpuSubBlock(w, ref.tensor, gpu, at[k]);
    CpuSubBlock(w, ref.tensor, cpu, index % w.region.blocksPerChunk + at[k]);
  }

  /** The blocks that take part in the copies of one layer. */
  function ActiveAt(w: Worker, ref: Ref, index: nat, n: nat, gpu: seq<nat>, cpu: seq<nat>, store: bool): seq<nat>
    requires w.region.blocksPerChunk > 0 && n <= |gpu|
    requires index % w.region.blocksPerChunk + n <= |cpu| * w.region.blocksPerChunk
  {
    if store then Active(PageIds(cpu, w.region.blocksPerChunk, n, index % w.region.blocksPerChunk), ref.mapping, true)
    else Active(PageIds(gpu, 1, n, 0), ref.mapping, false)
  }

  lemma ActiveIs(w: Worker, ref: Ref, group: nat, index: nat, n: nat, gpu: seq<nat>, cpu: seq<nat>, store: bool)
    requires w.region.blocksPerChunk > 0 && n <= |gpu|
    requires index % w.region.blocksPerChunk + n <= |cpu| * w.region.blocksPerChunk
    ensures var at := ActiveAt(w, ref, index, n, gpu, cpu, store);
            var pages := RefPages(ref, group, index, n, gpu, cpu, w.region.blocksPerChunk);
            && (forall k :: 0 <= k < |at| ==> at[k] < n)
            && forall i: nat :: i in at <==> i < n && Takes(pages[i], store, w.region.blocksPerChunk)
  {
    hide Active, Writes, RefPages, PageIds;
    var b := w.region.blocksPerChunk;
    var pages, ids := RefPages(ref, group, index, n, gpu, cpu, b), PageIds(cpu, b, n, index % b);
    forall i: nat | i < n ensures pages[i].ref == ref && ids[i] == pages[i].chunk * b + pages[i].sub {
      PageIdIs(ref, group, index, n, gpu, cpu, b, i);
    }
  }

  lemma PageIdIs(ref: Ref, group: nat, index: nat, n: nat, gpu: seq<nat>, cpu: seq<nat>, b: nat, i: nat)
    requires b > 0 && n <= |gpu| && index % b + n <= |cpu| * b && i < n
    ensures var p := RefPages(ref, group, index, n, gpu, cpu, b)[i];
            p.ref == ref && PageIds(cpu, b, n, index % b)[i] == p.chunk * b + p.sub
  {
    QuotientBelow(index % b + i, |cpu|, b);
    assert RefPages(ref, group, index, n, gpu, cpu, b)[i].chunk == cpu[(index % b + i) / b];
    assert PageIds(cpu, b, n, index % b)[i] == PageId(cpu, b, index % b + i);
  }

  /** The parts of one layer's copies: the blocks that take part, and the two
      addresses of each. */
  lemma LayerParts(w: Worker, ref: Ref, group: nat, index: nat, n: nat, gpu: seq<nat>, cpu: seq<nat>, store: bool)
    returns (at: seq<nat>, srcs: seq<nat>, dsts: seq<nat>)
    requires w.region.Valid() && TensorIn(w, ref) && n <= |gpu|
    requires index % w.region.blocksPerChunk + n <= |cpu| * w.region.blocksPerChunk
    requires RefsIn([ref], GpuSide(w), CpuSide(w)) && RefsIn([ref], CpuSide(w), GpuSide(w))
    ensures var plan := Fragments(ref.mapping.runs);
            && |srcs| == |dsts| == |at|
            && LayerOps(w, ref, index, n, gpu, cpu, store) == Expanded(srcs, dsts, plan, store, |at| * |plan|)
    ensures var pages := RefPages(ref, group, index, n, gpu, cpu, w.region.blocksPerChunk);
            && (forall i: nat :: i in at <==> i < n && Takes(pages[i], store, w.region.blocksPerChunk))
            && (forall k :: 0 <= k < |at| ==>
                  && at[k] < n && pages[at[k]].ref == ref
                  && srcs[k] == (if store then GpuAddress(w, pages[at[k]]) else CpuAddress(w, pages[at[k]]))
                  && dsts[k] == (if store then CpuAddress(w, pages[at[k]]) else GpuAddress(w, pages[at[k]])))
  {
    hide Expanded, Fragments, Bases, RefPages, Takes, GpuAddress, CpuAddress, Active, PageIds;
    var b := w.region.blocksPerChunk;
    at := ActiveAt(w, ref, index, n, gpu, cpu, store);
    ActiveIs(w, ref, group, index, n, gpu, cpu, store);
    var gpus := Bases(w.gpu[ref.tensor], 1, gpu, 0, n, at);
    var cpus := Bases(CpuTensor(w, ref.tensor), b, cpu, index % b, n, at);
    forall k | 0 <= k < |at|
      ensures var p := RefPages(ref, group, index, n, gpu, cpu, b)[at[k]];
              p.ref == ref && gpus[k] == GpuAddress(w, p) && cpus[k] == CpuAddress(w, p)
    {
      BasesAre(w, ref, group, index, n, gpu, cpu, at, k);
    }
    srcs, dsts := if store then gpus else cpus, if store then cpus else gpus;
  }

  lemma LayerHas(w: Worker, ref: Ref, group: nat, index: nat, n: nat, gpu: seq<nat>, cpu: seq<nat>, store: bool,
                 p: Page, f: Fragment, c: Copy)
    requires w.region.Valid() && TensorIn(w, ref) && n <= |gpu|
    requires index % w.region.blocksPerChunk + n <= |cpu| * w.region.blocksPerChunk
    requires RefsIn([ref], GpuSide(w), CpuSide(w)) && RefsIn([ref], CpuSide(w), GpuSide(w))
    requires p in RefPages(ref, group, index, n, gpu, cpu, w.region.blocksPerChunk) && PieceOf(w, p, f, store, c)
    ensures c in LayerOps(w, ref, index, n, gpu, cpu, store)
  {
    var plan, pages := Fragments(ref.mapping.runs), RefPages(ref, group, index, n, gpu, cpu, w.region.blocksPerChunk);
    var at, srcs, dsts := LayerParts(w, ref, group, index, n, gpu, cpu, store);
    hide LayerOps, RefPages, Expanded, Fragments, Takes, FragmentCopy, GpuAddress, CpuAddress;
    var i: nat :| i < n && pages[i] == p;
    assert i in at;
    var k :| 0 <= k < |at| && at[k] == i;
    var x :| 0 <= x < |plan| && plan[x] == f;
    ExpandedHas(srcs, dsts, plan, store, k, x);
  }

  lemma LayerMoves(w: Worker, ref: Ref, group: nat, index: nat, n: nat, gpu: seq<nat>, cpu: seq<nat>, store: bool)
    requires w.region.Valid() && TensorIn(w, ref) && n <= |gpu|
    requires index % w.region.blocksPerChunk + n <= |cpu| * w.region.blocksPerChunk
    requires RefsIn([ref], GpuSide(w), CpuSide(w)) && RefsIn([ref], CpuSide(w), GpuSide(w))
    ensures MovesExactly(w, RefPages(ref, group, index, n, gpu, cpu, w.region.blocksPerChunk), store,
                         LayerOps(w, ref, index, n, gpu, cpu, store))
  {
    var plan, pages := Fragments(ref.mapping.runs), RefPages(ref, group, index, n, gpu, cpu, w.region.blocksPerChunk);
    var ops := LayerOps(w, ref, index, n, gpu, cpu, store);
    var at, srcs, dsts := LayerParts(w, ref, group, index, n, gpu, cpu, store);
    hide LayerOps, RefPages, Expanded, Fragments, Takes, FragmentCopy, GpuAddress, CpuAddress;
    forall c ensures c in ops <==> Moved(w, pages, store, c) {
      if c in ops {
        var k, f := ExpandedIs(srcs, dsts, plan, store, |at| * |plan|, c);
        assert at[k] in at && pages[at[k]] in pages && PieceOf(w, pages[at[k]], f, store, c);
      }
      if p, f :| p in pages && PieceOf(w, p, f, store, c) {
        LayerHas(w, ref, group, index, n, gpu, cpu, store, p, f, c);
      }
    }
  }

  lemma {:induction false} GroupMoves(w: Worker, refs: seq<Ref>, group: nat, index: nat, n: nat, gpu: seq<nat>,
                                      cpu: seq<nat>, store: bool)
    requires w.region.Valid() && AllIn(w, refs) && n <= |gpu|
    requires RefsIn(refs, GpuSide(w), CpuSide(w)) && RefsIn(refs, CpuSide(w), GpuSide(w))
    requires index % w.region.blocksPerChunk + n <= |cpu| * w.region.blocksPerChunk
    ensures var skip := index % w.region.blocksPerChunk;
            MovesExactly(w, GroupPages(refs, group, index, n, gpu, cpu, w.region.blocksPerChunk), store,
                         if store then CanonicalGroupOps(refs, GpuSide(w), CpuSide(w), gpu, cpu, n, 0, skip, true)
                         else CanonicalGroupOps(refs, CpuSide(w), GpuSide(w), cpu, gpu, n, skip, 0, false))
  {
    if refs == [] {
    } else {
      var front, last := refs[..|refs| - 1], refs[|refs| - 1];
      var b := w.region.blocksPerChunk;
      assert last in refs;
      GroupMoves(w, front, group, index, n, gpu, cpu, store);
      LayerMoves(w, last, group, index, n, gpu, cpu, store);
      hide MovesExactly, CanonicalRefOps, RefPages;
      MovesMore(w, GroupPages(front, group, index, n, gpu, cpu, b),
                if store then CanonicalGroupOps(front, GpuSide(w), CpuSide(w), gpu, cpu, n, 0, index % b, true)
                else CanonicalGroupOps(front, CpuSide(w), GpuSide(w), cpu, gpu, n, index % b, 0, false),
                RefPages(last, group, index, n, gpu, cpu, b), LayerOps(w, last, index, n, gpu, cpu, store), store);
    }
  }

  predicate SidesMatch(w: Worker, refs: seq<seq<Ref>>) {
    forall g :: 0 <= g < |refs| ==>
      AllIn(w, refs[g]) && RefsIn(refs[g], GpuSide(w), CpuSide(w)) && RefsIn(refs[g], CpuSide(w), GpuSide(w))
  }

  /** All copies of a transfer in the canonical layout. */
  function SharedOps(w: Worker, groups: seq<Group>, refs: seq<seq<Ref>>, gpu: seq<nat>, cpu: seq<nat>,
                     store: bool): seq<Copy>
    requires Listed(groups, refs, gpu, cpu, w.region.blocksPerChunk) && SidesMatch(w, refs)
  {
    if store then AllOps(Shared(true), groups, refs, GpuSide(w), CpuSide(w), gpu, cpu)
    else AllOps(Shared(false), groups, refs, CpuSide(w), GpuSide(w), cpu, gpu)
  }

  /** A transfer copies exactly the fragments of the pages its rank takes part in. */
  lemma {:induction false} TransferMoves(w: Worker, groups: seq<Group>, refs: seq<seq<Ref>>, gpu: seq<nat>,
                                         cpu: seq<nat>, store: bool)
    requires w.region.Valid() && Listed(groups, refs, gpu, cpu, w.region.blocksPerChunk) && SidesMatch(w, refs)
    ensures MovesExactly(w, PagesOf(groups, refs, gpu, cpu, w.region.blocksPerChunk), store,
                         SharedOps(w, groups, refs, gpu, cpu, store))
  {
    if groups == [] {
    } else {
      var last, b := groups[|groups| - 1], w.region.blocksPerChunk;
      var front, refsFront := groups[..|groups| - 1], refs[..|refs| - 1];
      TransferMoves(w, front, refsFront, gpu, cpu, store);
      if last.size > 0 {
        GroupMoves(w, refs[|refs| - 1], |groups| - 1, last.index, last.size, LastGpu(groups, gpu),
                   LastCpu(groups, cpu, b), store);
        assert LastGpu(groups, gpu) == LastBlocks(groups, GpuSide(w), gpu);
        assert LastCpu(groups, cpu, b) == LastBlocks(groups, CpuSide(w), cpu);
      }
      hide MovesExactly, GroupPages, CanonicalGroupOps;
      var more := if last.size == 0 then []
                  else GroupPages(refs[|refs| - 1], |groups| - 1, last.index, last.size, LastGpu(groups, gpu),
                                  LastCpu(groups, cpu, b), b);
      var ops := if store then LastOps(Shared(true), groups, refs, GpuSide(w), CpuSide(w), gpu, cpu)
                 else LastOps(Shared(false), groups, refs, CpuSide(w), GpuSide(w), cpu, gpu);
      if last.size == 0 {
        NothingMoves(w, store);
      }
      MovesMore(w, PagesOf(front, refsFront, gpu, cpu, b), SharedOps(w, front, refsFront, gpu, cpu, store), more, ops,
          store);
    }
  }

  lemma NothingMoves(w: Worker, store: bool)
    ensures MovesExactly(w, [], store, [])
  {}

  // ---- one job on all ranks ----

  /** A transfer that every rank carries out: the same groups and chunks, the
      blocks of its own GPU. Every logical chunk of a group has its own home. */
  datatype Job = Job(ranks: seq<Rank>, groups: seq<Group>, gpu: seq<seq<nat>>, cpu: seq<nat>, home: (nat, nat) -> nat) {
    predicate Has(r: nat) { r < |ranks| && r < |gpu| }

    function Worker(r: nat): Worker
      requires Has(r)
    {
      ranks[r].worker
    }

    /** The pages rank `r` takes part in, whoever writes them. */
    function Pages(r: nat): seq<Page>
      requires Has(r) && Listed(groups, ranks[r].refs, gpu[r], cpu, Worker(r).region.blocksPerChunk)
    {
      PagesOf(groups, ranks[r].refs, gpu[r], cpu, Worker(r).region.blocksPerChunk)
    }

    ghost predicate RankValid(r: nat) {
      && Has(r) && ranks[r].Valid() && Worker(r).region == ranks[0].worker.region
      && Listed(groups, ranks[r].refs, gpu[r], cpu, Worker(r).region.blocksPerChunk) && SidesMatch(Worker(r), ranks[r].refs)
      && (forall p :: p in Pages(r) ==> Fitting(Worker(r), p))
    }

    /** The layers of all ranks use the same tensors, in the same order. */
    ghost predicate SameShape(r: nat, s: nat)
      requires Has(r) && Has(s)
    {
      && |ranks[r].refs| == |ranks[s].refs|
      && (forall g :: 0 <= g < |ranks[r].refs| ==> |ranks[r].refs[g]| == |ranks[s].refs[g]|)
      && forall g, i :: 0 <= g < |ranks[r].refs| && 0 <= i < |ranks[r].refs[g]| ==>
           ranks[r].refs[g][i].tensor == ranks[s].refs[g][i].tensor
    }

    ghost predicate Valid() {
      && |ranks| == |gpu| && ranks != [] && ranks[0].worker.region.blocksPerChunk > 0 && Injective(home)
      && (forall r :: 0 <= r < |ranks| ==> RankValid(r))
      && (forall r, s :: 0 <= r < |ranks| && 0 <= s < |ranks| ==> SameShape(r, s))
      && HomedBy(groups, cpu, ranks[0].worker.region.blocksPerChunk, home)
    }

    /** Each turn belongs to a rank that holds the same shared bytes. */
    ghost predicate TurnsTaken() {
      forall r: nat, g: nat, i: nat, w: nat ::
        r < |ranks| && g < |ranks[r].refs| && i < |ranks[r].refs[g]| && w < ranks[r].refs[g][i].mapping.numWriters ==>
        TurnTaken(r, g, i, w)
    }

    ghost predicate TurnTaken(r: nat, g: nat, i: nat, w: nat)
      requires r < |ranks| && g < |ranks[r].refs| && i < |ranks[r].refs[g]|
    {
      exists s: nat :: TakesTurn(r, s, g, i, w)
    }

    ghost predicate TakesTurn(r: nat, s: nat, g: nat, i: nat, w: nat)
      requires r < |ranks| && g < |ranks[r].refs| && i < |ranks[r].refs[g]|
    {
      && s < |ranks| && g < |ranks[s].refs| && i < |ranks[s].refs[g]|
      && var mine, other := ranks[r].refs[g][i].mapping, ranks[s].refs[g][i].mapping;
         && other.numWriters == mine.numWriters && other.writerIndex == w && Covers(mine, other)
    }

    /** What the ranks hold of a shared byte is the same. */
    ghost predicate Agree(m: Memory) {
      forall r: nat, s: nat, p, q, l: nat, k: nat, c: nat ::
        Sees(r, p, l, c) && Sees(s, q, k, c) && SamePage(p, q) ==>
        m(GpuAddress(Worker(r), p) + l) == m(GpuAddress(Worker(s), q) + k)
    }

    /** Byte `l` of page `p` of rank `r` is byte `c` of its shared page. */
    ghost predicate Sees(r: nat, p: Page, l: nat, c: nat) {
      && Has(r) && Listed(groups, ranks[r].refs, gpu[r], cpu, Worker(r).region.blocksPerChunk) && p in Pages(r)
      && TensorIn(Worker(r), p.ref) && MapsTo(p.ref.mapping, l, c)
    }

    /** In any order, the stores of all ranks and what others copy meanwhile. */
    ghost predicate StoredByAll(cs: seq<Copy>, others: seq<Copy>)
      requires Valid()
    {
      forall c :: c in cs <==> IsStore(c) || c in others
    }

    ghost predicate IsStore(c: Copy)
      requires Valid()
    {
      exists r: nat :: r < |ranks| && c in Stores(r)
    }

    /** A copy that leaves alone what any rank holds of a page. */
    ghost predicate SparesSources(p: Page, c: Copy) {
      forall s: nat, q :: Holds(s, p, q) ==> LeavesPage(Worker(s), q, c)
    }

    /** Page `q` of rank `s` is what it holds of the shared page of `p`. */
    ghost predicate Holds(s: nat, p: Page, q: Page) {
      RankValid(s) && q in Pages(s) && SamePage(p, q)
    }

    ghost function Stores(r: nat): seq<Copy>
      requires Valid() && r < |ranks|
    {
      assert RankValid(r);
      SharedOps(Worker(r), groups, ranks[r].refs, gpu[r], cpu, true)
    }
  }

  /** A copy that does not write the page of `p` on the GPU. */
  predicate LeavesPage(w: Worker, p: Page, c: Copy)
    requires p.ref.tensor < |w.gpu|
  {
    Disjoint(c.dst, c.size, GpuAddress(w, p), w.gpu[p.ref.tensor].stride)
  }

  ghost predicate Covers(mine: Mapping, other: Mapping) {
    forall l: nat, c: nat :: MapsTo(mine, l, c) ==> exists k: nat :: MapsTo(other, k, c)
  }

  predicate SamePage(p: Page, q: Page) {
    p.group == q.group && p.logical == q.logical && p.ref.tensor == q.ref.tensor
  }

  // ---- where pieces read and write ----

  /** The cell of a page lies in the region. */
  lemma CellPlace(r: Rank, p: Page)
    requires r.Valid() && Fitting(r.worker, p)
    ensures var w := r.worker;
            && CellIn(w.region, CellOf(w, p)) && w.region.base <= CpuAddress(w, p)
            && CpuAddress(w, p) + w.region.pages[p.ref.tensor]
               <= w.region.base + w.region.numBlocks * w.region.rowStride
  {
    CellInRegion(r.worker.region, CellOf(r.worker, p));
  }

  /** Its page of the GPU lies in its tensor, apart from the region. */
  lemma GpuPlace(r: Rank, p: Page)
    requires r.Valid() && Fitting(r.worker, p)
    ensures var w, t := r.worker, r.worker.gpu[p.ref.tensor];
            && t.base <= GpuAddress(w, p) && GpuAddress(w, p) + t.stride <= t.base + w.gpuBlocks * t.stride
            && Disjoint(t.base, w.gpuBlocks * t.stride, w.region.base, w.region.numBlocks * w.region.rowStride)
  {
    InRows(p.gpuBlock, r.worker.gpuBlocks, r.worker.gpu[p.ref.tensor].stride, r.worker.gpu[p.ref.tensor].stride);
  }

  /** A piece stays inside its page of the GPU and inside its cell. */
  lemma PiecePlaces(r: Rank, p: Page, f: Fragment)
    requires r.Valid() && Fitting(r.worker, p) && f in Fragments(p.ref.mapping.runs)
    ensures var w := r.worker;
            && Disjoint(GpuAddress(w, p) + f.local, f.size, w.region.base, w.region.numBlocks * w.region.rowStride)
            && f.canonical + f.size <= w.region.pages[p.ref.tensor] && f.local + f.size <= w.gpu[p.ref.tensor].stride
            && w.region.base <= CpuAddress(w, p)
            && CpuAddress(w, p) + f.canonical + f.size <= w.region.base + w.region.numBlocks * w.region.rowStride
  {
    CellPlace(r, p);
    GpuPlace(r, p);
    hide CpuAddress, GpuAddress, Fragments, Rank.Valid;
  }

  /** Two pages whose pieces touch the same byte of the region share a cell. */
  lemma SameCell(r: Rank, p: Page, s: Rank, q: Page, a: int)
    requires r.Valid() && s.Valid() && r.worker.region == s.worker.region
    requires Fitting(r.worker, p) && Fitting(s.worker, q)
    requires CpuAddress(r.worker, p) <= a < CpuAddress(r.worker, p) + r.worker.region.pages[p.ref.tensor]
    requires CpuAddress(s.worker, q) <= a < CpuAddress(s.worker, q) + s.worker.region.pages[q.ref.tensor]
    ensures CellOf(r.worker, p) == CellOf(s.worker, q)
  {
    if CellOf(r.worker, p) != CellOf(s.worker, q) {
      CellsDisjoint(r.worker.region, CellOf(r.worker, p), CellOf(s.worker, q));
    }
  }

  // ---- the same page on another rank ----

  lemma {:induction false} GroupHas(refs: seq<Ref>, group: nat, index: nat, n: nat, gpu: seq<nat>, cpu: seq<nat>, b: nat,
                                    i: nat, x: nat)
    requires b > 0 && n <= |gpu| && index % b + n <= |cpu| * b && i < |refs| && x < n
    ensures RefPages(refs[i], group, index, n, gpu, cpu, b)[x] in GroupPages(refs, group, index, n, gpu, cpu, b)
  {
    var front, last := refs[..|refs| - 1], refs[|refs| - 1];
    hide RefPages;
    if i < |front| {
      GroupHas(front, group, index, n, gpu, cpu, b, i, x);
    }
  }

  /** Every layer of every group has a page for each logical block. */
  lemma {:induction false} PagesHave(groups: seq<Group>, refs: seq<seq<Ref>>, gpu: seq<nat>, cpu: seq<nat>, b: nat,
                                     g: nat, i: nat, logical: nat) returns (p: Page)
    requires Listed(groups, refs, gpu, cpu, b) && g < |groups| && i < |refs[g]|
    requires groups[g].index <= logical < groups[g].index + groups[g].size
    ensures p in PagesOf(groups, refs, gpu, cpu, b) && p.group == g && p.logical == logical && p.ref == refs[g][i]
  {
    if g == |groups| - 1 {
      var last, x := groups[g], logical - groups[g].index;
      p := RefPages(refs[g][i], g, last.index, last.size, LastGpu(groups, gpu), LastCpu(groups, cpu, b), b)[x];
      GroupHas(refs[g], g, last.index, last.size, LastGpu(groups, gpu), LastCpu(groups, cpu, b), b, i, x);
    } else {
      p := PagesHave(groups[..|groups| - 1], refs[..|refs| - 1], gpu, cpu, b, g, i, logical);
    }
  }

  /** What a page of a job is, and that every rank has it, in the same cell. */
  lemma Counterpart(job: Job, r: nat, p: Page, s: nat) returns (i: nat, q: Page)
    requires job.Valid() && r < |job.ranks| && s < |job.ranks| && job.RankValid(r) && job.RankValid(s)
    requires p in job.Pages(r)
    ensures q in job.Pages(s) && SamePage(p, q) && CellOf(job.Worker(r), p) == CellOf(job.Worker(s), q)
    ensures p.group < |job.ranks[r].refs| && i < |job.ranks[r].refs[p.group]| && p.ref == job.ranks[r].refs[p.group][i]
    ensures p.group < |job.ranks[s].refs| && i < |job.ranks[s].refs[p.group]| && q.ref == job.ranks[s].refs[p.group][i]
  {
    var b := job.Worker(r).region.blocksPerChunk;
    var mine, other := job.ranks[r].refs, job.ranks[s].refs;
    TransferPlaced(job.groups, mine, job.gpu[r], job.cpu, b);
    TransferPlaced(job.groups, other, job.gpu[s], job.cpu, b);
    assert job.SameShape(r, s);
    hide PagesOf, Used, Taken, Injective, HomedBy, Rank.Valid, Fitting;
    i :| 0 <= i < |mine[p.group]| && mine[p.group][i] == p.ref;
    q := PagesHave(job.groups, other, job.gpu[s], job.cpu, b, p.group, i, p.logical);
    PageAtHome(job.groups, mine, job.gpu[r], job.cpu, b, job.home, p);
    PageAtHome(job.groups, other, job.gpu[s], job.cpu, b, job.home, q);
    assert job.ranks[r].Valid() && job.ranks[s].Valid();
    RankIsZero(job.ranks[r]);
    RankIsZero(job.ranks[s]);
  }

  lemma RankIsZero(r: Rank)
    requires r.Valid()
    ensures r.worker.rank == 0 && r.worker.region.Valid()
  {}

  /** For every page there is a rank whose turn it is, and it holds all its
      shared bytes. */
  lemma Elect(job: Job, r: nat, p: Page) returns (s: nat, q: Page)
    requires job.Valid() && job.TurnsTaken() && r < |job.ranks| && job.RankValid(r) && p in job.Pages(r)
    ensures s < |job.ranks| && job.RankValid(s) && q in job.Pages(s) && SamePage(p, q)
    ensures CellOf(job.Worker(r), p) == CellOf(job.Worker(s), q) && Covers(p.ref.mapping, q.ref.mapping)
    ensures Takes(q, true, job.Worker(s).region.blocksPerChunk)
  {
    hide PagesOf, Job.RankValid, Job.SameShape, HomedBy, Injective, MapsTo;
    var m, id := p.ref.mapping, p.chunk * job.Worker(r).region.blocksPerChunk + p.sub;
    var i, same := Counterpart(job, r, p, r);
    if m.numWriters <= 1 {
      s, q := r, p;
    } else {
      var w := id % m.numWriters;
      assert job.TurnTaken(r, p.group, i, w);
      s :| job.TakesTurn(r, s, p.group, i, w);
      assert job.RankValid(s);
      var j, q' := Counterpart(job, r, p, s);
      SameRefAgain(job, r, p.group, i, j);
      q := q';
      SameRegion(job, r, s);
    }
  }

  lemma SameRegion(job: Job, r: nat, s: nat)
    requires job.RankValid(r) && job.RankValid(s)
    ensures job.Worker(r).region == job.Worker(s).region
  {}

  /** A layer occurs once in its group. */
  lemma SameRefAgain(job: Job, r: nat, g: nat, i: nat, j: nat)
    requires job.RankValid(r) && g < |job.ranks[r].refs| && i < |job.ranks[r].refs[g]| && j < |job.ranks[r].refs[g]|
    requires job.ranks[r].refs[g][i] == job.ranks[r].refs[g][j]
    ensures i == j
  {
    assert OwnTensors(job.ranks[r].refs[g]);
  }

  // ---- storing ----

  /** A stored byte of the region comes from the page in whose cell it lies. */
  lemma StoredFrom(job: Job, r: nat, p: Page, c: nat, d: Copy) returns (s: nat, q: Page, f: Fragment)
    requires job.Valid() && r < |job.ranks| && job.RankValid(r) && p in job.Pages(r)
    requires c < job.Worker(r).region.pages[p.ref.tensor]
    requires job.IsStore(d) && d.Writes(CpuAddress(job.Worker(r), p) + c)
    ensures s < |job.ranks| && job.Holds(s, p, q)
    ensures TensorIn(job.Worker(s), q.ref) && f in Fragments(q.ref.mapping.runs)
    ensures f.canonical <= c < f.canonical + f.size
    ensures d.src + (CpuAddress(job.Worker(r), p) + c - d.dst)
            == GpuAddress(job.Worker(s), q) + f.local + (c - f.canonical)
  {
    s :| s < |job.ranks| && d in job.Stores(s);
    assert job.RankValid(s);
    TransferMoves(job.Worker(s), job.groups, job.ranks[s].refs, job.gpu[s], job.cpu, true);
    var b := job.Worker(s).region.blocksPerChunk;
    assert Moved(job.Worker(s), job.Pages(s), true, d);
    q, f :| q in job.Pages(s) && PieceOf(job.Worker(s), q, f, true, d);
    hide PagesOf, SharedOps, Fragments, CpuAddress, GpuAddress, HomedBy, Injective;
    PiecePlaces(job.ranks[s], q, f);
    SameCell(job.ranks[r], p, job.ranks[s], q, CpuAddress(job.Worker(r), p) + c);
    CellGivesPage(job, r, p, s, q);
    SameAddress(job.Worker(r), p, job.Worker(s), q);
  }

  lemma SameAddress(w: Worker, p: Page, v: Worker, q: Page)
    requires w.region == v.region && CellOf(w, p) == CellOf(v, q) && p.ref.tensor < |w.region.pages|
    ensures q.ref.tensor == p.ref.tensor && CpuAddress(w, p) == CpuAddress(v, q)
  {}

  /** A cell of a job belongs to one page. */
  lemma CellGivesPage(job: Job, r: nat, p: Page, s: nat, q: Page)
    requires job.Valid() && r < |job.ranks| && s < |job.ranks| && job.RankValid(r) && job.RankValid(s)
    requires p in job.Pages(r) && q in job.Pages(s) && CellOf(job.Worker(r), p) == CellOf(job.Worker(s), q)
    ensures SamePage(p, q)
  {
    var b := job.Worker(r).region.blocksPerChunk;
    TransferPlaced(job.groups, job.ranks[r].refs, job.gpu[r], job.cpu, b);
    TransferPlaced(job.groups, job.ranks[s].refs, job.gpu[s], job.cpu, b);
    hide PagesOf, Used, Taken, Injective, HomedBy, Rank.Valid, Fitting;
    PageAtHome(job.groups, job.ranks[r].refs, job.gpu[r], job.cpu, b, job.home, p);
    PageAtHome(job.groups, job.ranks[s].refs, job.gpu[s], job.cpu, b, job.home, q);
    SameHome(p, q, b, job.home);
  }

  /** A store writes inside the region. */
  lemma StoreInRegion(o: Rank, groups: seq<Group>, gpu: seq<nat>, cpu: seq<nat>, c: Copy)
    requires o.Valid() && Listed(groups, o.refs, gpu, cpu, o.worker.region.blocksPerChunk) && SidesMatch(o.worker, o.refs)
    requires forall q :: q in PagesOf(groups, o.refs, gpu, cpu, o.worker.region.blocksPerChunk) ==> Fitting(o.worker, q)
    requires c in SharedOps(o.worker, groups, o.refs, gpu, cpu, true)
    ensures var region := o.worker.region;
            region.base <= c.dst && c.dst + c.size <= region.base + region.numBlocks * region.rowStride
  {
    hide PagesOf, SharedOps, CpuAddress, GpuAddress, Fragments;
    TransferMoves(o.worker, groups, o.refs, gpu, cpu, true);
    var q, f :| q in PagesOf(groups, o.refs, gpu, cpu, o.worker.region.blocksPerChunk)
                && PieceOf(o.worker, q, f, true, c);
    PiecePlaces(o, q, f);
  }

  /** Nothing overwrites what a store reads of the page. */
  lemma SourceKept(job: Job, others: seq<Copy>, p: Page, s: nat, q: Page, x: nat, e: Copy)
    requires job.Valid() && job.Holds(s, p, q) && x < job.Worker(s).gpu[q.ref.tensor].stride
    requires forall c :: c in others ==> job.SparesSources(p, c)
    requires job.IsStore(e) || e in others
    ensures !e.Writes(GpuAddress(job.Worker(s), q) + x)
  {
    hide PagesOf, Listed, SidesMatch, SharedOps, CpuAddress, GpuAddress, HomedBy, Injective, Job.SameShape, Rank.Valid;
    if e in others {
      assert job.SparesSources(p, e);
    } else {
      var t: nat :| t < |job.ranks| && e in job.Stores(t);
      assert job.RankValid(t);
      StoreInRegion(job.ranks[t], job.groups, job.gpu[t], job.cpu, e);
      GpuPlace(job.ranks[s], q);
    }
  }

  /** The rank whose turn it is writes every shared byte of the page. */
  lemma StoreWrites(job: Job, cs: seq<Copy>, others: seq<Copy>, r: nat, p: Page, l: nat, c: nat)
    requires job.Valid() && job.TurnsTaken() && job.StoredByAll(cs, others) && r < |job.ranks| && job.RankValid(r)
    requires p in job.Pages(r) && MapsTo(p.ref.mapping, l, c)
    ensures Written(cs, CpuAddress(job.Worker(r), p) + c)
  {
    hide Job.TurnsTaken, Job.SameShape, Rank.Valid, Listed, SidesMatch, PagesOf, SharedOps, CpuAddress, HomedBy,
        Injective, Takes, MapsTo;
    var s, q := Elect(job, r, p);
    var k: nat :| MapsTo(q.ref.mapping, k, c);
    var d := ElectedWrites(job, s, q, k, c);
    assert job.IsStore(d) && d in cs;
    SameAddress(job.Worker(r), p, job.Worker(s), q);
  }

  lemma ElectedWrites(job: Job, s: nat, q: Page, k: nat, c: nat) returns (d: Copy)
    requires job.Valid() && s < |job.ranks| && job.RankValid(s) && q in job.Pages(s)
    requires Takes(q, true, job.Worker(s).region.blocksPerChunk) && MapsTo(q.ref.mapping, k, c)
    ensures d in job.Stores(s) && d.Writes(CpuAddress(job.Worker(s), q) + c)
  {
    hide Job.SameShape, Rank.Valid, Listed, SidesMatch, PagesOf, SharedOps, CpuAddress, GpuAddress, HomedBy, Injective,
        Takes, MapsTo;
    var w := job.Worker(s);
    RankIsZero(job.ranks[s]);
    TransferMoves(w, job.groups, job.ranks[s].refs, job.gpu[s], job.cpu, true);
    var f := MappedBy(q.ref.mapping, k, c);
    d := Piece(w, q, f, true);
    assert PieceOf(w, q, f, true, d);
    assert Moved(w, job.Pages(s), true, d);
  }

  lemma MappedBy(m: Mapping, l: nat, c: nat) returns (f: Fragment)
    requires MapsTo(m, l, c)
    ensures f in Fragments(m.runs) && f.Holds(l, c)
  {
    FragmentsMap(m.runs, l, c);
    f :| f in Fragments(m.runs) && f.Holds(l, c);
  }

  lemma MapsBy(m: Mapping, f: Fragment, l: nat, c: nat)
    requires f in Fragments(m.runs) && f.Holds(l, c)
    ensures MapsTo(m, l, c)
  {
    FragmentsMap(m.runs, l, c);
  }

  /** A copy that goes on during the store of page `p` of rank `r` and disturbs
      neither the shared page nor what any rank holds of it. */
  ghost predicate LeavesShared(job: Job, r: nat, p: Page, c: Copy)
    requires r < |job.ranks|
  {
    Spares(job.ranks[r].worker.region, CellOf(job.ranks[r].worker, p), c) && job.SparesSources(p, c)
  }

  /** Once all ranks have stored, in whatever order and whatever others did
      meanwhile, the shared page holds every mapped byte of every rank. */
  lemma StoreAll(job: Job, cs: seq<Copy>, others: seq<Copy>, m: Memory, r: nat, p: Page, l: nat, c: nat)
    requires job.Valid() && job.TurnsTaken() && job.Agree(m) && job.StoredByAll(cs, others)
    requires r < |job.ranks| && job.RankValid(r) && p in job.Pages(r) && MapsTo(p.ref.mapping, l, c)
    requires forall d :: d in others ==> LeavesShared(job, r, p, d)
    ensures TensorIn(job.Worker(r), p.ref)
    ensures ApplyAll(m, cs)(CpuAddress(job.Worker(r), p) + c) == m(GpuAddress(job.Worker(r), p) + l)
  {
    hide PagesOf, Job.Valid, Job.TurnsTaken, Job.Agree, Job.StoredByAll, Job.SameShape, Rank.Valid, Listed, SidesMatch,
        MapsTo, Written, CpuAddress, GpuAddress, SharedOps, ApplyAll, LeavesShared;
    MappedIn(job.ranks[r], p, l, c);
    var a := CpuAddress(job.Worker(r), p) + c;
    StoreWrites(job, cs, others, r, p, l, c);
    forall d | d in cs && d.Writes(a)
      ensures var from := d.src + (a - d.dst); !Written(cs, from) && m(from) == m(GpuAddress(job.Worker(r), p) + l)
    {
      StoredAgrees(job, cs, others, m, r, p, l, c, d);
    }
    OneValue(m, cs, a, m(GpuAddress(job.Worker(r), p) + l));
  }

  lemma MappedIn(r: Rank, p: Page, l: nat, c: nat)
    requires r.Valid() && Fitting(r.worker, p) && MapsTo(p.ref.mapping, l, c)
    ensures c < r.worker.region.pages[p.ref.tensor] && l < r.worker.gpu[p.ref.tensor].stride
  {
    var f := MappedBy(p.ref.mapping, l, c);
  }

  /** What is written to a shared byte is the one value that all ranks hold. */
  lemma StoredAgrees(job: Job, cs: seq<Copy>, others: seq<Copy>, m: Memory, r: nat, p: Page, l: nat, c: nat, d: Copy)
    requires job.Valid() && job.Agree(m) && job.StoredByAll(cs, others)
    requires r < |job.ranks| && job.RankValid(r) && p in job.Pages(r) && MapsTo(p.ref.mapping, l, c)
    requires TensorIn(job.Worker(r), p.ref) && c < job.Worker(r).region.pages[p.ref.tensor]
    requires forall e :: e in others ==> LeavesShared(job, r, p, e)
    requires d in cs && d.Writes(CpuAddress(job.Worker(r), p) + c)
    ensures var from := d.src + (CpuAddress(job.Worker(r), p) + c - d.dst);
            !Written(cs, from) && m(from) == m(GpuAddress(job.Worker(r), p) + l)
  {
    hide PagesOf, MapsTo, Job.SameShape, Job.IsStore, Job.SparesSources, Rank.Valid, Fitting, Fragments, GpuAddress,
        CpuAddress, SharedOps, SidesMatch, HomedBy, Injective, Spares;
    OthersLeave(job, r, p, c, others);
    var s, q, f := StoredFrom(job, r, p, c, d);
    var k := f.local + (c - f.canonical);
    MapsBy(q.ref.mapping, f, k, c);
    assert job.Sees(r, p, l, c) && job.Sees(s, q, k, c);
    MappedIn(job.ranks[s], q, k, c);
    forall e | e in cs ensures !e.Writes(GpuAddress(job.Worker(s), q) + k) {
      SourceKept(job, others, p, s, q, k, e);
    }
  }

  lemma OthersLeave(job: Job, r: nat, p: Page, c: nat, others: seq<Copy>)
    requires r < |job.ranks| && job.RankValid(r) && p in job.Pages(r) && c < job.Worker(r).region.pages[p.ref.tensor]
    requires forall e :: e in others ==> LeavesShared(job, r, p, e)
    ensures forall e :: e in others ==>
              !e.Writes(CpuAddress(job.Worker(r), p) + c) && job.SparesSources(p, e)
  {
    hide PagesOf, CellStart, Spares, Job.SparesSources;
    CellPlace(job.ranks[r], p);
    forall e | e in others ensures !e.Writes(CpuAddress(job.Worker(r), p) + c) {
      assert LeavesShared(job, r, p, e);
      SparedByte(job.Worker(r).region, CellOf(job.Worker(r), p), e, c);
    }
  }

  // ---- other transfers, and loading ----

  /** The stores of other pages leave a cell alone, and so do all loads. */
  lemma TransfersSpare(r: Rank, groups: seq<Group>, gpu: seq<nat>, cpu: seq<nat>, store: bool, cell: Cell, c: Copy)
    requires r.Valid() && Listed(groups, r.refs, gpu, cpu, r.worker.region.blocksPerChunk) && SidesMatch(r.worker, r.refs)
    requires forall p :: p in PagesOf(groups, r.refs, gpu, cpu, r.worker.region.blocksPerChunk) ==> Fitting(r.worker, p)
    requires forall p :: p in PagesOf(groups, r.refs, gpu, cpu, r.worker.region.blocksPerChunk) && store ==>
               CellOf(r.worker, p) != cell
    requires c in SharedOps(r.worker, groups, r.refs, gpu, cpu, store)
    ensures Spares(r.worker.region, cell, c)
  {
    TransferMoves(r.worker, groups, r.refs, gpu, cpu, store);
    var p, f :| p in PagesOf(groups, r.refs, gpu, cpu, r.worker.region.blocksPerChunk)
                && PieceOf(r.worker, p, f, store, c);
    hide PagesOf, SharedOps, CellStart, GpuAddress, Fragments;
    CellPlace(r, p);
    PiecePlaces(r, p, f);
    if store {
      assert OtherCell(r.worker.region, cell, CellOf(r.worker, p), c);
    }
  }

  /** Stores of other pages, by whatever rank, disturb no store of page `p`. */
  lemma StoresLeaveShared(job: Job, r: nat, p: Page, o: Rank, groups: seq<Group>, gpu: seq<nat>, cpu: seq<nat>, c: Copy)
    requires job.Valid() && r < |job.ranks| && job.RankValid(r) && p in job.Pages(r)
    requires o.Valid() && Listed(groups, o.refs, gpu, cpu, o.worker.region.blocksPerChunk) && SidesMatch(o.worker, o.refs)
    requires o.worker.region == job.Worker(r).region && c in SharedOps(o.worker, groups, o.refs, gpu, cpu, true)
    requires forall q :: q in PagesOf(groups, o.refs, gpu, cpu, o.worker.region.blocksPerChunk) ==>
               Fitting(o.worker, q) && CellOf(o.worker, q) != CellOf(job.Worker(r), p)
    ensures LeavesShared(job, r, p, c)
  {
    hide PagesOf, SharedOps, Spares, Rank.Valid, HomedBy, Injective, Job.SameShape;
    RankIsZero(o);
    TransfersSpare(o, groups, gpu, cpu, true, CellOf(job.Worker(r), p), c);
    StoreInRegion(o, groups, gpu, cpu, c);
    forall s: nat, q | job.Holds(s, p, q) ensures LeavesPage(job.Worker(s), q, c) {
      GpuPlace(job.ranks[s], q);
    }
  }

  /** A load of one rank. */
  datatype Load = Load(rank: Rank, groups: seq<Group>, gpu: seq<nat>, cpu: seq<nat>) {
    function Worker(): Worker { rank.worker }

    ghost predicate Valid() {
      && rank.Valid() && Listed(groups, rank.refs, gpu, cpu, Worker().region.blocksPerChunk)
      && SidesMatch(Worker(), rank.refs) && Distinct(gpu) && (forall p :: p in Pages() ==> Fitting(Worker(), p))
    }

    function Pages(): seq<Page>
      requires Listed(groups, rank.refs, gpu, cpu, Worker().region.blocksPerChunk)
    {
      PagesOf(groups, rank.refs, gpu, cpu, Worker().region.blocksPerChunk)
    }

    function Ops(): seq<Copy>
      requires Listed(groups, rank.refs, gpu, cpu, Worker().region.blocksPerChunk) && SidesMatch(Worker(), rank.refs)
    {
      SharedOps(Worker(), groups, rank.refs, gpu, cpu, false)
    }
  }

  lemma LoadPlace(load: Load, d: Copy)
    requires load.Valid() && d in load.Ops()
    ensures var region := load.Worker().region;
            && Disjoint(d.dst, d.size, region.base, region.numBlocks * region.rowStride)
            && region.base <= d.src && d.src + d.size <= region.base + region.numBlocks * region.rowStride
  {
    TransferMoves(load.Worker(), load.groups, load.rank.refs, load.gpu, load.cpu, false);
    var q, f :| q in load.Pages() && PieceOf(load.Worker(), q, f, false, d);
    hide PagesOf, SharedOps, Fragments, CpuAddress, GpuAddress;
    PiecePlaces(load.rank, q, f);
  }

  /** A byte that is loaded comes from the cell of the page it lies in. */
  lemma LoadedFrom(load: Load, q: Page, l: nat, d: Copy) returns (c: nat)
    requires load.Valid() && q in load.Pages() && l < load.Worker().gpu[q.ref.tensor].stride
    requires d in load.Ops() && d.Writes(GpuAddress(load.Worker(), q) + l)
    ensures MapsTo(q.ref.mapping, l, c)
    ensures d.src + (GpuAddress(load.Worker(), q) + l - d.dst) == CpuAddress(load.Worker(), q) + c
  {
    var w := load.Worker();
    TransferMoves(w, load.groups, load.rank.refs, load.gpu, load.cpu, false);
    var q', f :| q' in load.Pages() && PieceOf(w, q', f, false, d);
    OnlyPage(load, q, q', f, l, d);
    c := f.canonical + (l - f.local);
    MapsBy(q.ref.mapping, f, l, c);
  }

  /** The pages of a load do not overlap on the GPU. */
  lemma OnlyPage(load: Load, q: Page, q': Page, f: Fragment, l: nat, d: Copy)
    requires load.Valid() && q in load.Pages() && q' in load.Pages() && l < load.Worker().gpu[q.ref.tensor].stride
    requires PieceOf(load.Worker(), q', f, false, d) && d.Writes(GpuAddress(load.Worker(), q) + l)
    ensures q == q'
  {
    DistinctGpuBlocks(load.groups, load.rank.refs, load.gpu, load.cpu, load.Worker().region.blocksPerChunk);
    hide PagesOf, SharedOps, Fragments, Listed, SidesMatch, CpuAddress;
    PiecePlaces(load.rank, q', f);
    if q.gpuBlock != q'.gpuBlock || q.ref.tensor != q'.ref.tensor {
      BlocksApart(load.rank, q, q');
    } else {
      var i, j :| 0 <= i < |load.Pages()| && load.Pages()[i] == q && 0 <= j < |load.Pages()| && load.Pages()[j] == q';
      assert i == j;
    }
  }

  lemma BlocksApart(r: Rank, p: Page, q: Page)
    requires r.Valid() && Fitting(r.worker, p) && Fitting(r.worker, q)
    requires p.gpuBlock != q.gpuBlock || p.ref.tensor != q.ref.tensor
    ensures Disjoint(GpuAddress(r.worker, p), r.worker.gpu[p.ref.tensor].stride,
                     GpuAddress(r.worker, q), r.worker.gpu[q.ref.tensor].stride)
  {
    GpuPlace(r, p);
    GpuPlace(r, q);
    if p.ref.tensor == q.ref.tensor {
      OtherRow(p.gpuBlock, q.gpuBlock, r.worker.gpu[p.ref.tensor].stride);
    }
  }

  lemma LoadWrites(load: Load, q: Page, l: nat, c: nat)
    requires load.Valid() && q in load.Pages() && MapsTo(q.ref.mapping, l, c)
    ensures TensorIn(load.Worker(), q.ref) && l < load.Worker().gpu[q.ref.tensor].stride
    ensures Written(load.Ops(), GpuAddress(load.Worker(), q) + l)
  {
    MappedIn(load.rank, q, l, c);
    var w := load.Worker();
    TransferMoves(w, load.groups, load.rank.refs, load.gpu, load.cpu, false);
    hide PagesOf, SharedOps, CpuAddress, GpuAddress, MapsTo;
    var f := MappedBy(q.ref.mapping, l, c);
    var d := Piece(w, q, f, false);
    assert PieceOf(w, q, f, false, d);
    assert Moved(w, load.Pages(), false, d);
    assert d in load.Ops() && d.Writes(GpuAddress(w, q) + l);
  }

  /** What others do while the ranks store page `p`, until it is loaded, and
      during the load of `q`. */
  ghost predicate Undisturbed(job: Job, others: Meanwhile, r: nat, p: Page, load: Load, q: Page)
    requires r < |job.ranks| && q.ref.tensor < |load.Worker().gpu|
  {
    && (forall d :: d in others.storing ==> LeavesShared(job, r, p, d))
    && (forall d :: d in others.between + others.loading ==>
          Spares(job.ranks[r].worker.region, CellOf(job.ranks[r].worker, p), d))
    && (forall d :: d in others.loading ==> LeavesPage(load.Worker(), q, d))
  }

  /** All ranks store, and a rank loads some of the pages, from the middle of a
      chunk if need be, while others copy all the time: each byte its runs cover
      is what its own page held, at whatever GPU block it is loaded to. */
  lemma StoreAllThenLoad(job: Job, cs: seq<Copy>, others: Meanwhile, load: Load, loads: seq<Copy>, m: Memory, r: nat,
                         p: Page, q: Page, l: nat, c: nat)
    requires job.Valid() && job.TurnsTaken() && job.Agree(m) && job.StoredByAll(cs, others.storing)
    requires r < |job.ranks| && job.RankValid(r) && p in job.Pages(r) && MapsTo(p.ref.mapping, l, c)
    requires load.Valid() && load.rank == job.ranks[r] && q in load.Pages() && Mixes(loads, load.Ops(), others.loading)
    requires HomedBy(load.groups, load.cpu, load.Worker().region.blocksPerChunk, job.home)
    requires q.group == p.group && q.logical == p.logical && q.ref == p.ref && Undisturbed(job, others, r, p, load, q)
    ensures TensorIn(job.Worker(r), p.ref)
    ensures ApplyAll(ApplyAll(ApplyAll(m, cs), others.between), loads)(GpuAddress(load.Worker(), q) + l)
            == m(GpuAddress(job.Worker(r), p) + l)
  {
    hide PagesOf, Job.Valid, Job.TurnsTaken, Job.Agree, Job.StoredByAll, Rank.Valid, Fitting, Listed, SidesMatch,
        MapsTo, CpuAddress, GpuAddress, SharedOps, HomedBy, Spares, LeavesShared, ApplyAll, Written;
    LoadedCell(job, r, p, load, q);
    LoadWrites(load, q, l, c);
    WrittenMore(load.Ops(), loads, GpuAddress(load.Worker(), q) + l);
    var v := m(GpuAddress(job.Worker(r), p) + l);
    var after := ApplyAll(ApplyAll(m, cs), others.between);
    forall d | d in loads && d.Writes(GpuAddress(load.Worker(), q) + l)
      ensures var from := d.src + (GpuAddress(load.Worker(), q) + l - d.dst); !Written(loads, from) && after(from) == v
    {
      assert d in others.loading ==> LeavesPage(load.Worker(), q, d);
      var k := LoadedFrom(load, q, l, d);
      KeptByte(job, cs, others.storing, others.between, m, r, p, l, k);
      CellNotWritten(job, others, load, loads, r, p, q, k);
    }
    OneValue(after, loads, GpuAddress(load.Worker(), q) + l, v);
  }

  lemma WrittenMore(cs: seq<Copy>, all: seq<Copy>, a: int)
    requires Written(cs, a) && forall c :: c in cs ==> c in all
    ensures Written(all, a)
  {}

  /** While the page is loaded nothing writes its cell. */
  lemma CellNotWritten(job: Job, others: Meanwhile, load: Load, loads: seq<Copy>, r: nat, p: Page, q: Page, k: nat)
    requires r < |job.ranks| && job.RankValid(r) && p in job.Pages(r) && load.Valid() && load.rank == job.ranks[r]
    requires q in load.Pages() && Mixes(loads, load.Ops(), others.loading) && Undisturbed(job, others, r, p, load, q)
    requires k < job.Worker(r).region.pages[p.ref.tensor]
    ensures !Written(loads, CpuAddress(job.Worker(r), p) + k)
  {
    hide PagesOf, Listed, SidesMatch, SharedOps, Spares, LeavesShared, CellStart, GpuAddress;
    var region := job.Worker(r).region;
    CellPlace(job.ranks[r], p);
    forall d | d in loads ensures !d.Writes(CpuAddress(job.Worker(r), p) + k) {
      if d in others.loading {
        assert d in others.between + others.loading;
        SparedByte(region, CellOf(job.Worker(r), p), d, k);
      } else {
        LoadPlace(load, d);
      }
    }
  }

  lemma LoadedCell(job: Job, r: nat, p: Page, load: Load, q: Page)
    requires job.Valid() && r < |job.ranks| && job.RankValid(r) && p in job.Pages(r)
    requires load.Valid() && load.rank == job.ranks[r] && q in load.Pages()
    requires HomedBy(load.groups, load.cpu, load.Worker().region.blocksPerChunk, job.home)
    requires q.group == p.group && q.logical == p.logical && q.ref == p.ref
    ensures TensorIn(job.Worker(r), p.ref) && CpuAddress(load.Worker(), q) == CpuAddress(job.Worker(r), p)
  {
    var b := job.Worker(r).region.blocksPerChunk;
    TransferPlaced(job.groups, job.ranks[r].refs, job.gpu[r], job.cpu, b);
    TransferPlaced(load.groups, load.rank.refs, load.gpu, load.cpu, b);
    hide PagesOf, Used, Taken, Injective, HomedBy, Rank.Valid;
    PageAtHome(job.groups, job.ranks[r].refs, job.gpu[r], job.cpu, b, job.home, p);
    PageAtHome(load.groups, load.rank.refs, load.gpu, load.cpu, b, job.home, q);
  }

  /** The shared byte after all stores and the transfers that spare its page. */
  lemma KeptByte(job: Job, cs: seq<Copy>, others: seq<Copy>, between: seq<Copy>, m: Memory, r: nat, p: Page, l: nat,
                 c: nat)
    requires job.Valid() && job.TurnsTaken() && job.Agree(m) && job.StoredByAll(cs, others)
    requires r < |job.ranks| && job.RankValid(r) && p in job.Pages(r) && MapsTo(p.ref.mapping, l, c)
    requires forall d :: d in others ==> LeavesShared(job, r, p, d)
    requires forall d :: d in between ==> Spares(job.Worker(r).region, CellOf(job.Worker(r), p), d)
    ensures TensorIn(job.Worker(r), p.ref) && c < job.Worker(r).region.pages[p.ref.tensor]
    ensures ApplyAll(ApplyAll(m, cs), between)(CpuAddress(job.Worker(r), p) + c) == m(GpuAddress(job.Worker(r), p) + l)
  {
    hide PagesOf, Job.Valid, Job.TurnsTaken, Job.Agree, Job.StoredByAll, Job.SameShape, Rank.Valid, Listed, SidesMatch,
        MapsTo, CellStart, GpuAddress, Spares, ApplyAll, LeavesShared;
    StoreAll(job, cs, others, m, r, p, l, c);
    MappedIn(job.ranks[r], p, l, c);
    CellPlace(job.ranks[r], p);
    RankIsZero(job.ranks[r]);
    ForeignKeep(job.Worker(r).region, CellOf(job.Worker(r), p), between, ApplyAll(m, cs), c);
  }

  /** No fragment of a shared page crosses a seam either. */
  lemma PiecesInOneRange(pinned: PinnedRegion, r: Rank, groups: seq<Group>, gpu: seq<nat>, cpu: seq<nat>, store: bool,
                         chunk: nat, c: Copy)
    requires r.Valid() && Listed(groups, r.refs, gpu, cpu, r.worker.region.blocksPerChunk) && SidesMatch(r.worker, r.refs)
    requires forall p :: p in PagesOf(groups, r.refs, gpu, cpu, r.worker.region.blocksPerChunk) ==> Fitting(r.worker, p)
    requires c in SharedOps(r.worker, groups, r.refs, gpu, cpu, store) && c.size > 0
    requires pinned.Valid() && pinned.isPinned && chunk > 0 && ChunkStarts(pinned.registeredChunks, chunk)
    requires pinned.total == Total(r.worker.region) && SeamsAtEdges(r.worker.region, chunk)
    ensures InOneRange(pinned.registeredChunks, (if store then c.dst else c.src) - r.worker.region.base, c.size)
  {
    hide PagesOf, SharedOps, PinnedRegion.Valid, ChunkStarts, SeamsAtEdges, InOneRange, Rank.Valid, Fitting, SidesMatch;
    RankIsZero(r);
    TransferMoves(r.worker, groups, r.refs, gpu, cpu, store);
    var p, f :| p in PagesOf(groups, r.refs, gpu, cpu, r.worker.region.blocksPerChunk)
                && PieceOf(r.worker, p, f, store, c);
    PieceInOneRange(pinned, r, p, f, store, chunk, c);
  }

  lemma PieceInOneRange(pinned: PinnedRegion, r: Rank, p: Page, f: Fragment, store: bool, chunk: nat, c: Copy)
    requires r.Valid() && Fitting(r.worker, p) && PieceOf(r.worker, p, f, store, c) && c.size > 0
    requires pinned.Valid() && pinned.isPinned && chunk > 0 && ChunkStarts(pinned.registeredChunks, chunk)
    requires pinned.total == Total(r.worker.region) && SeamsAtEdges(r.worker.region, chunk)
    ensures InOneRange(pinned.registeredChunks, (if store then c.dst else c.src) - r.worker.region.base, c.size)
  {
    hide CellStart, GpuAddress, Fragments, PinnedRegion.Valid, ChunkStarts, SeamsAtEdges, InOneRange, Total;
    CellPlace(r, p);
    PiecePlaces(r, p, f);
    SpanInOneRange(pinned, r.worker.region, CellOf(r.worker, p), chunk, CpuAddress(r.worker, p) + f.canonical, f.size);
  }

  /** The shared views, one for each tensor, are where the pages of it are. */
  lemma SharedViewsAreParts(views: WorkerViews, w: Worker, t: nat)
    requires views.Valid() && t < |views.canonicalViews| == |w.region.pages| && w.rank == 0
    requires forall u :: 0 <= u < |w.region.pages| ==>
               views.canonicalWidths[u] == w.region.pages[u] * w.region.blocksPerChunk
    ensures CpuTensor(w, t).base == w.region.base + views.canonicalViews[t]
  {
    BeforeScaled(w.region.pages, views.canonicalWidths, w.region.blocksPerChunk, t);
  }
}
