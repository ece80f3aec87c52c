/** Two ranks that share one page, half each: a small job that has everything the
    theorems about shared pages ask for. */
module SharedExample {
  import opened Sequences
  import opened CopyEngine
  import opened Layout
  import opened Addressing
  import opened Canonical
  import opened Transfers
  import opened RoundTrip
  import opened SharedPages

  /** Ranks 0 and 1 hold two bytes each of a shared page of four. */
  function HalfPage(r: nat): Ref {
    Ref(0, 2, Mapping(4, [CopyRun(0, 2 * r, 2, 1, 0, 0)], 1, 0))
  }

  function HalfWorker(r: nat): Worker {
    Worker(Region(0, 1, 4, 4, 1, [4], 1), 0, [Tensor(4 + 2 * r, 2, 2)], 1)
  }

  /** Any two blocks of two groups have homes of their own. */
  function Home(g: nat, c: nat): nat { (g + c) * (g + c) + g }

  lemma SquareGap(s: nat, t: nat)
    requires s < t
    ensures s * s + 2 * s + 1 <= t * t
  {
    var d := t - s - 1;
    assert t * t == (s + 1) * (s + 1) + 2 * d * (s + 1) + d * d;
    assert d * (s + 1) >= 0;
  }

  lemma HomesDiffer()
    ensures Injective(Home)
  {
    forall g: nat, c: nat, h: nat, d: nat | Home(g, c) == Home(h, d) ensures g == h && c == d {
      if g + c < h + d {
        SquareGap(g + c, h + d);
      } else if h + d < g + c {
        SquareGap(h + d, g + c);
      }
    }
  }

  function TwoHalves(): Job {
    var ranks := [Rank(HalfWorker(0), [[HalfPage(0)]]), Rank(HalfWorker(1), [[HalfPage(1)]])];
    Job(ranks, [Group(1, 0)], [[0], [0]], [0], Home)
  }

  function Half(r: nat): Page { Page(HalfPage(r), 0, 0, 0, 0, 0) }

  lemma HalfFragments(r: nat)
    ensures Fragments(HalfPage(r).mapping.runs) == [Fragment(0, 2 * r, 2)]
  {
    var runs := HalfPage(r).mapping.runs;
    assert runs[..0] == [] && Fragments(runs) == Fragments(runs[..0]) + RunFragments(runs[0], 1);
    assert RunFragments(runs[0], 1) == [Fragment(0, 2 * r, 2)];
  }

  lemma HalfMaps(r: nat, l: nat, c: nat)
    ensures MapsTo(HalfPage(r).mapping, l, c) <==> l < 2 && c == 2 * r + l
  {
    HalfFragments(r);
    FragmentsMap(HalfPage(r).mapping.runs, l, c);
    var f := Fragment(0, 2 * r, 2);
    assert f in [f];
    assert PlanMaps([f], l, c) <==> f.Holds(l, c);
  }

  lemma HalfPages(r: nat)
    requires r < 2
    ensures Used([Group(1, 0)], 1) == 1
    ensures Listed([Group(1, 0)], [[HalfPage(r)]], [0], [0], 1)
    ensures PagesOf([Group(1, 0)], [[HalfPage(r)]], [0], [0], 1) == [Half(r)]
  {
    var groups, refs: seq<seq<Ref>>, ids: seq<nat> := [Group(1, 0)], [[HalfPage(r)]], [0];
    assert groups[..0] == [] && refs[..0] == [];
    assert Taken(Group(1, 0), 1) == 1;
    assert Used([], 1) == 0;
    assert Used(groups, 1) == 1;
    assert Used(groups[..0], 1) == 0;
    assert LastGpu(groups, ids) == ids[0..1] == ids;
    assert LastCpu(groups, ids, 1) == ids[0..1] == ids;
    assert refs[0][..0] == [];
    assert GroupPages([], 0, 0, 1, ids, ids, 1) == [];
    assert RefPages(HalfPage(r), 0, 0, 1, ids, ids, 1) == [Half(r)];
    assert GroupPages(refs[0], 0, 0, 1, ids, ids, 1) == [Half(r)];
    assert PagesOf([], [], ids, ids, 1) == [];
    assert PagesOf(groups, refs, ids, ids, 1) == PagesOf([], [], ids, ids, 1) + [Half(r)];
  }

  lemma RegionIs()
    ensures HalfWorker(0).region == HalfWorker(1).region && HalfWorker(0).region.Valid()
  {
    var pages: seq<nat> := [4];
    assert Before(pages, 1) == Before(pages, 0) + pages[0] == 4;
  }

  lemma HalfRank(r: nat)
    requires r < 2
    ensures TwoHalves().ranks[r].Valid() && TwoHalves().RankValid(r)
  {
    RegionIs();
    HalfPages(r);
    HalfFragments(r);
    assert RefFits(HalfWorker(r), HalfPage(r));
    assert SidesMatch(HalfWorker(r), [[HalfPage(r)]]);
  }

  lemma HalvesHomed()
    ensures HomedBy([Group(1, 0)], [0], 1, Home)
  {
    var groups := [Group(1, 0)];
    assert groups[..0] == [] && Used([], 1) == 0 && Taken(Group(1, 0), 1) == 1;
    forall g: nat, c: nat | g < |groups| && c < Taken(groups[g], 1) && ChunkAt(groups, g, 1, c) < 1
      ensures [0][ChunkAt(groups, g, 1, c)] == Home(g, LogicalChunk(groups, g, 1, c))
    {
      assert g == 0 && c == 0;
    }
  }

  lemma JobFits()
    ensures TwoHalves().Valid()
  {
    hide Rank.Valid, Listed, SidesMatch, HomedBy, Injective;
    HalfRank(0);
    HalfRank(1);
    HomesDiffer();
    HalvesHomed();
    RegionIs();
  }

  /** Every rank takes all turns of its own half. */
  lemma TurnsAreTaken()
    ensures TwoHalves().TurnsTaken()
  {
    var job := TwoHalves();
    forall r: nat, g: nat, i: nat, w: nat
      | r < 2 && g < |job.ranks[r].refs| && i < |job.ranks[r].refs[g]| && w < job.ranks[r].refs[g][i].mapping.numWriters
      ensures job.TurnTaken(r, g, i, w)
    {
      assert g == 0 && i == 0 && w == 0;
      assert job.TakesTurn(r, r, 0, 0, 0);
    }
  }

  lemma SeenHalf(r: nat, p: Page, l: nat, c: nat)
    requires TwoHalves().Sees(r, p, l, c)
    ensures r < 2 && p == Half(r) && l < 2 && c == 2 * r + l
  {
    hide PagesOf, Listed, MapsTo;
    HalfPages(r);
    assert p in [Half(r)];
    HalfMaps(r, l, c);
  }

  lemma HalvesAgree(m: Memory)
    ensures TwoHalves().Agree(m)
  {
    hide Job.Sees;
    forall r: nat, s: nat, p, q, l: nat, k: nat, c: nat
      | TwoHalves().Sees(r, p, l, c) && TwoHalves().Sees(s, q, k, c)
      ensures r == s && p == q && l == k
    {
      SeenHalf(r, p, l, c);
      SeenHalf(s, q, k, c);
    }
  }

  lemma HalfPlaces(r: nat)
    ensures CpuAddress(HalfWorker(r), Half(r)) == 0 && GpuAddress(HalfWorker(r), Half(r)) == 4 + 2 * r
  {
    var pages: seq<nat> := [4];
    assert Before(pages, 0) == 0;
  }

  lemma StoresOfBoth(job: Job)
    requires job.Valid() && |job.ranks| == 2
    ensures job.StoredByAll(job.Stores(0) + job.Stores(1), [])
  {
    hide Job.Valid, Job.RankValid, SharedOps;
    forall c | c in job.Stores(0) + job.Stores(1) ensures exists r: nat :: r < 2 && c in job.Stores(r) {
      if c in job.Stores(0) {
      } else {
        assert c in job.Stores(1);
      }
    }
  }

  /** Two ranks store their halves: the shared page has both. */
  lemma BothHalvesStored(m: Memory, r: nat, l: nat)
    requires r < 2 && l < 2
    ensures TwoHalves().Valid()
    ensures ApplyAll(m, TwoHalves().Stores(0) + TwoHalves().Stores(1))(2 * r + l) == m(4 + 2 * r + l)
  {
    hide Job.Valid, Job.RankValid, Job.Agree, Job.TurnsTaken, Job.StoredByAll, Job.Stores, PagesOf, MapsTo, Listed,
        CpuAddress, GpuAddress, ApplyAll;
    var job := TwoHalves();
    JobFits();
    TurnsAreTaken();
    HalvesAgree(m);
    StoresOfBoth(job);
    HalfRank(r);
    HalfPages(r);
    HalfMaps(r, l, 2 * r + l);
    HalfPlaces(r);
    StoreAll(job, job.Stores(0) + job.Stores(1), [], m, r, Half(r), l, 2 * r + l);
  }

  function HalfLoad(r: nat): Load
    requires r < 2
  {
    Load(TwoHalves().ranks[r], [Group(1, 0)], [0], [0])
  }

  lemma HalfLoads(r: nat)
    requires r < 2
    ensures HalfLoad(r).Valid() && Half(r) in HalfLoad(r).Pages() && HomedBy([Group(1, 0)], [0], 1, Home)
  {
    hide Rank.Valid, HomedBy, PagesOf;
    HalfRank(r);
    HalfPages(r);
    HalvesHomed();
  }

  /** ... and whatever becomes of the two GPUs until then, a load brings each
      rank its half back. */
  lemma BothHalvesBack(m: Memory, between: seq<Copy>, r: nat, l: nat)
    requires r < 2 && l < 2 && forall c :: c in between ==> Disjoint(c.dst, c.size, 0, 4)
    ensures TwoHalves().Valid() && HalfLoad(r).Valid()
    ensures var stored := ApplyAll(m, TwoHalves().Stores(0) + TwoHalves().Stores(1));
            ApplyAll(ApplyAll(stored, between), HalfLoad(r).Ops())(4 + 2 * r + l) == m(4 + 2 * r + l)
  {
    hide Job.Valid, Job.RankValid, Job.Agree, Job.TurnsTaken, Job.StoredByAll, Job.Stores, Load.Ops, PagesOf, MapsTo,
        Listed, CpuAddress, GpuAddress, ApplyAll, HomedBy, Rank.Valid;
    var job := TwoHalves();
    JobFits();
    TurnsAreTaken();
    HalvesAgree(m);
    StoresOfBoth(job);
    HalfRank(r);
    HalfPages(r);
    HalfMaps(r, l, 2 * r + l);
    HalfPlaces(r);
    HalfLoads(r);
    StoreAllThenLoad(job, job.Stores(0) + job.Stores(1), Meanwhile([], between, []), HalfLoad(r), HalfLoad(r).Ops(), m, r,
                     Half(r), Half(r), l, 2 * r + l);
  }
}
