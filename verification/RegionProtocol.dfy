/** The ranks that open the backing file of the region: whoever creates it sizes
    it, the others wait. Steps of all ranks interleave freely. */
module RegionProtocol {
  import opened Arithmetic
  import opened Sequences

  datatype Path = Huge | Shm

  /** Where a rank is. `Create` holds an inode it must size; `Discard` failed to
      and is about to try to unlink the path; `Wait` looks at the size of an inode it
      opened; `TimedOut` is about to look whether the path still exists. */
  datatype Rank =
    | Begin(path: Path)
    | Create(path: Path, inode: nat, turn: nat)
    | Discard(path: Path, inode: nat)
    | Reopen(path: Path)
    | Wait(path: Path, inode: nat)
    | TimedOut
    | Opened(path: Path, inode: nat)
    | Failed

  /** `hugeOk(k)`, `shmOk(k)`: whether the `k`-th creator on a path can validate
      and size its file. */
  datatype Config = Config(total: nat, hugePage: nat, hugeOk: nat -> bool, shmOk: nat -> bool) {
    ghost predicate Valid() { total > 0 && hugePage > 0 }

    function Ok(p: Path, turn: nat): bool { if p == Huge then hugeOk(turn) else shmOk(turn) }

    /** Huge pages round the file up. */
    function FileSize(p: Path): nat
      requires hugePage > 0
      ensures FileSize(p) >= total && (p == Shm ==> FileSize(p) == total)
      ensures p == Huge ==> FileSize(p) < total + hugePage && FileSize(p) % hugePage == 0
    {
      if p == Huge then RoundUp(total, hugePage) else total
    }
  }

  datatype Inode = Inode(path: Path, size: nat)

  /** `files` are the paths, `inodes` the files themselves, in the order they
      were made: an unlinked file lives on for those that have it open. */
  datatype State = State(files: map<Path, nat>, inodes: seq<Inode>, hugeTurns: nat, shmTurns: nat, ranks: seq<Rank>)

  /** All ranks begin with the huge page file when it was asked for. */
  function Init(n: nat, huge: bool): State {
    State(map[], [], 0, 0, seq(n, _ => Begin(if huge then Huge else Shm)))
  }

  predicate Sized(cfg: Config, s: State, inode: nat) {
    inode < |s.inodes| && s.inodes[inode].size >= cfg.total
  }

  /** One step of rank `r`. With `fault`, what may go wrong does: a rank that
      waits times out when it finds the file too small, and the unlinking of a
      stub fails and leaves it under its path. */
  function Next(cfg: Config, s: State, r: nat, fault: bool): State
    requires cfg.Valid()
  {
    if r >= |s.ranks| then s else
    match s.ranks[r]
    case Begin(p) =>
      if p in s.files then s.(ranks := s.ranks[r := Reopen(p)])
      else
        s.(files := s.files[p := |s.inodes|], inodes := s.inodes + [Inode(p, 0)],
           hugeTurns := if p == Huge then s.hugeTurns + 1 else s.hugeTurns,
           shmTurns := if p == Shm then s.shmTurns + 1 else s.shmTurns,
           ranks := s.ranks[r := Create(p, |s.inodes|, if p == Huge then s.hugeTurns else s.shmTurns)])
    case Create(p, i, turn) =>
      if i >= |s.inodes| then s
      else if cfg.Ok(p, turn) then s.(inodes := s.inodes[i := Inode(p, cfg.FileSize(p))],
          ranks := s.ranks[r := Opened(p, i)])
      else s.(ranks := s.ranks[r := Discard(p, i)])
    case Discard(p, i) =>
      s.(files := if fault then s.files else s.files - {p}, ranks := s.ranks[r := if p == Huge then Begin(Shm) else Failed])
    case Reopen(p) =>
      if p in s.files then s.(ranks := s.ranks[r := Wait(p, s.files[p])])
      else s.(ranks := s.ranks[r := if p == Huge then Begin(Shm) else Failed])
    case Wait(p, i) =>
      if Sized(cfg, s, i) then s.(ranks := s.ranks[r := Opened(p, i)])
      else if fault then s.(ranks := s.ranks[r := if p == Huge then TimedOut else Failed])
      else s
    case TimedOut => s.(ranks := s.ranks[r := if Huge in s.files then Failed else Begin(Shm)])
    case Opened(_, _) => s
    case Failed => s
  }

  /** A rank that made the inode of a path and has not sized it. */
  predicate Holds(r: Rank, p: Path, inode: nat) {
    (r.Create? || r.Discard?) && r.path == p && r.inode == inode
  }

  ghost predicate RankOk(cfg: Config, s: State, r: nat)
    requires r < |s.ranks|
  {
    match s.ranks[r]
    case Create(p, i, _) => p in s.files && s.files[p] == i && i < |s.inodes| && s.inodes[i] == Inode(p, 0)
    case Discard(p, i) => p in s.files && s.files[p] == i && i < |s.inodes| && s.inodes[i] == Inode(p, 0)
    case Wait(p, i) =>
      i < |s.inodes| && s.inodes[i].path == p && (s.inodes[i].size > 0 ==> p in s.files && s.files[p] == i)
    case Opened(p, i) => Sized(cfg, s, i) && p in s.files && s.files[p] == i
    case _ => true
  }

  ghost predicate FilesOk(cfg: Config, s: State) {
    && (forall p :: p in s.files ==> s.files[p] < |s.inodes| && s.inodes[s.files[p]].path == p)
    && (forall i :: 0 <= i < |s.inodes| ==> s.inodes[i].size == 0 || s.inodes[i].size >= cfg.total)
  }

  ghost predicate OneHolder(s: State) {
    forall q, r, p, i: nat :: 0 <= q < |s.ranks| && 0 <= r < |s.ranks| && q != r && Holds(s.ranks[q], p, i) ==>
        !Holds(s.ranks[r], p, i)
  }

  ghost predicate Inv(cfg: Config, s: State) {
    FilesOk(cfg, s) && (forall r :: 0 <= r < |s.ranks| ==> RankOk(cfg, s, r)) && OneHolder(s)
  }

  lemma InvAtFirst(cfg: Config, n: nat, huge: bool)
    ensures Inv(cfg, Init(n, huge))
  {}

  lemma FilesKept(cfg: Config, s: State, r: nat, fault: bool)
    requires cfg.Valid() && FilesOk(cfg, s) && r < |s.ranks| && RankOk(cfg, s, r)
    ensures FilesOk(cfg, Next(cfg, s, r, fault))
  {}

  /** What a step of `r` leaves of another rank `q`. */
  lemma OtherRankKept(cfg: Config, s: State, r: nat, fault: bool, q: nat)
    requires cfg.Valid() && FilesOk(cfg, s) && OneHolder(s) && r < |s.ranks| && q < |s.ranks| && q != r
    requires RankOk(cfg, s, r) && RankOk(cfg, s, q)
    ensures RankOk(cfg, Next(cfg, s, r, fault), q)
  {
    assert s.ranks[r].Discard? ==> Holds(s.ranks[r], s.ranks[r].path, s.ranks[r].inode);
    assert s.ranks[q].Create? || s.ranks[q].Discard? ==> Holds(s.ranks[q], s.ranks[q].path, s.ranks[q].inode);
  }

  lemma OwnRankKept(cfg: Config, s: State, r: nat, fault: bool)
    requires cfg.Valid() && FilesOk(cfg, s) && r < |s.ranks| && RankOk(cfg, s, r)
    ensures RankOk(cfg, Next(cfg, s, r, fault), r)
  {}

  lemma HolderKept(cfg: Config, s: State, r: nat, fault: bool)
    requires cfg.Valid() && Inv(cfg, s) && r < |s.ranks|
    ensures RankOk(cfg, s, r) && OneHolder(Next(cfg, s, r, fault))
  {
    assert RankOk(cfg, s, r);
    var s' := Next(cfg, s, r, fault);
    forall q, t, p, i: nat | 0 <= q < |s'.ranks| && 0 <= t < |s'.ranks| && q != t && Holds(s'.ranks[q], p, i)
      ensures !Holds(s'.ranks[t], p, i)
    {
      assert RankOk(cfg, s, q) && RankOk(cfg, s, t);
      assert q != r ==> Holds(s.ranks[q], p, i) && i < |s.inodes|;
      assert t != r ==> s'.ranks[t] == s.ranks[t];
      assert Holds(s'.ranks[r], p, i) ==> i == |s.inodes| || Holds(s.ranks[r], p, i);
    }
  }

  lemma InvKept(cfg: Config, s: State, r: nat, fault: bool)
    requires cfg.Valid() && Inv(cfg, s) && r < |s.ranks|
    ensures RankOk(cfg, s, r) && Inv(cfg, Next(cfg, s, r, fault))
  {
    assert RankOk(cfg, s, r);
    FilesKept(cfg, s, r, fault);
    HolderKept(cfg, s, r, fault);
    forall q | 0 <= q < |s.ranks| ensures RankOk(cfg, Next(cfg, s, r, fault), q) {
      if q == r {
        OwnRankKept(cfg, s, r, fault);
      } else {
        OtherRankKept(cfg, s, r, fault, q);
      }
    }
  }

  // ---- every run ----

  datatype Move = Move(rank: nat, fault: bool)

  /** Where the ranks are after `moves`. */
  function After(cfg: Config, s: State, moves: seq<Move>): State
    requires cfg.Valid()
  {
    if moves == [] then s
    else
      var last := moves[|moves| - 1];
      Next(cfg, After(cfg, s, moves[..|moves| - 1]), last.rank, last.fault)
  }

  lemma {:induction false} EveryRunKeepsInv(cfg: Config, n: nat, huge: bool, moves: seq<Move>)
    requires cfg.Valid()
    ensures Inv(cfg, After(cfg, Init(n, huge), moves))
    ensures |After(cfg, Init(n, huge), moves).ranks| == n
  {
    if moves == [] {
      InvAtFirst(cfg, n, huge);
    } else {
      var front, last := moves[..|moves| - 1], moves[|moves| - 1];
      EveryRunKeepsInv(cfg, n, huge, front);
      if last.rank < n {
        InvKept(cfg, After(cfg, Init(n, huge), front), last.rank, last.fault);
      }
    }
  }

  /** Ranks that opened one path have one file, and it has its full size. */
  lemma OpenedOnOnePath(cfg: Config, n: nat, huge: bool, moves: seq<Move>, q: nat, r: nat)
    requires cfg.Valid() && q < n && r < n
    ensures var s := After(cfg, Init(n, huge), moves);
            |s.ranks| == n && (s.ranks[q].Opened? && s.ranks[r].Opened? && s.ranks[q].path == s.ranks[r].path ==>
              s.ranks[q].inode == s.ranks[r].inode && Sized(cfg, s, s.ranks[q].inode))
  {
    EveryRunKeepsInv(cfg, n, huge, moves);
    assert RankOk(cfg, After(cfg, Init(n, huge), moves), q);
    assert RankOk(cfg, After(cfg, Init(n, huge), moves), r);
  }

  /** All ranks that finished map the same file. */
  ghost predicate OneFile(s: State) {
    forall q, r :: 0 <= q < |s.ranks| && 0 <= r < |s.ranks| && s.ranks[q].Opened? && s.ranks[r].Opened? ==>
        s.ranks[q] == s.ranks[r]
  }

  /** The ranks that have not looked at the huge page file yet. */
  function Unstarted(s: State): set<nat> {
    set r | 0 <= r < |s.ranks| && s.ranks[r] == Begin(Huge)
  }

  /** When the first creator succeeds, the file is there from then on, and no
      rank ever looks elsewhere. */
  ghost predicate FirstStays(s: State) {
    if s.hugeTurns == 0 then Huge !in s.files && forall r :: 0 <= r < |s.ranks| ==> s.ranks[r] == Begin(Huge)
    else
      && s.hugeTurns == 1 && Huge in s.files
      && forall r :: 0 <= r < |s.ranks| ==>
           match s.ranks[r]
           case Begin(p) => p == Huge
           case Create(p, _, turn) => p == Huge && turn == 0
           case Discard(_, _) => false
           case Reopen(p) => p == Huge
           case Wait(p, _) => p == Huge
           case Opened(p, _) => p == Huge
           case _ => true
  }

  lemma {:induction false} FirstSucceeds(cfg: Config, n: nat, moves: seq<Move>)
    requires cfg.Valid() && cfg.hugeOk(0)
    ensures FirstStays(After(cfg, Init(n, true), moves))
  {
    if moves != [] {
      FirstSucceeds(cfg, n, moves[..|moves| - 1]);
    }
  }

  /** When every creator fails, no huge page file ever gets its size. */
  ghost predicate NoneSized(s: State, n: nat) {
    && |s.ranks| == n
    && (forall i :: 0 <= i < |s.inodes| && s.inodes[i].path == Huge ==> s.inodes[i].size == 0)
    && s.hugeTurns + |Unstarted(s)| <= n
    && (forall r :: 0 <= r < n && s.ranks[r].Create? && s.ranks[r].path == Huge ==> s.ranks[r].turn < n)
  }

  lemma OnlyRankMoves(cfg: Config, s: State, r: nat, fault: bool)
    requires cfg.Valid() && r < |s.ranks|
    ensures var s' := Next(cfg, s, r, fault);
            && |s'.ranks| == |s.ranks| && s'.ranks == s.ranks[r := s'.ranks[r]] && s'.ranks[r] != Begin(Huge)
            && s'.hugeTurns <= s.hugeTurns + if s.ranks[r] == Begin(Huge) then 1 else 0
  {}

  lemma UnstartedStep(cfg: Config, s: State, r: nat, fault: bool)
    requires cfg.Valid() && r < |s.ranks|
    ensures var s' := Next(cfg, s, r, fault);
            |s'.ranks| == |s.ranks| && s'.hugeTurns + |Unstarted(s')| <= s.hugeTurns + |Unstarted(s)|
    ensures s.ranks[r] == Begin(Huge) ==> |Unstarted(s)| > 0
  {
    OnlyRankMoves(cfg, s, r, fault);
    hide Next;
    assert Unstarted(Next(cfg, s, r, fault)) == Unstarted(s) - {r};
    assert s.ranks[r] == Begin(Huge) ==> r in Unstarted(s);
    if s.ranks[r] != Begin(Huge) {
      assert Unstarted(s) - {r} == Unstarted(s);
    }
  }

  lemma AllFailStep(cfg: Config, s: State, n: nat, r: nat, fault: bool)
    requires cfg.Valid() && NoneSized(s, n) && r < n && RankOk(cfg, s, r) && forall k: nat :: k < n ==> !cfg.hugeOk(k)
    ensures NoneSized(Next(cfg, s, r, fault), n)
  {
    UnstartedStep(cfg, s, r, fault);
    hide Unstarted;
  }

  lemma {:induction false} AllFail(cfg: Config, n: nat, huge: bool, moves: seq<Move>)
    requires cfg.Valid() && forall k: nat :: k < n ==> !cfg.hugeOk(k)
    ensures NoneSized(After(cfg, Init(n, huge), moves), n)
  {
    if moves == [] {
      BelowSize(n);
      SubsetSize(Unstarted(Init(n, huge)), Below(n));
    } else {
      var front, last := moves[..|moves| - 1], moves[|moves| - 1];
      AllFail(cfg, n, huge, front);
      EveryRunKeepsInv(cfg, n, huge, front);
      if last.rank < n {
        AllFailStep(cfg, After(cfg, Init(n, huge), front), n, last.rank, last.fault);
      }
    }
  }

  /** If the outcome does not depend on who creates the file, or the first
      creator succeeds, the ranks are never split. */
  lemma NeverSplit(cfg: Config, n: nat, huge: bool, moves: seq<Move>)
    requires cfg.Valid() && (huge ==> cfg.hugeOk(0) || forall k: nat :: k < n ==> !cfg.hugeOk(k))
    ensures OneFile(After(cfg, Init(n, huge), moves))
  {
    var s := After(cfg, Init(n, huge), moves);
    EveryRunKeepsInv(cfg, n, huge, moves);
    if huge && cfg.hugeOk(0) {
      FirstSucceeds(cfg, n, moves);
    } else if huge {
      AllFail(cfg, n, huge, moves);
    } else {
      ShmOnly(cfg, n, moves);
    }
    forall q, r | 0 <= q < n && 0 <= r < n && s.ranks[q].Opened? && s.ranks[r].Opened? ensures s.ranks[q] == s.ranks[r] {
      OpenedOnOnePath(cfg, n, huge, moves, q, r);
      assert RankOk(cfg, s, q) && RankOk(cfg, s, r);
    }
  }

  ghost predicate OnShm(s: State) {
    forall r :: 0 <= r < |s.ranks| ==> s.ranks[r] != TimedOut && (s.ranks[r] != Failed ==> s.ranks[r].path == Shm)
  }

  lemma OnShmStep(cfg: Config, s: State, r: nat, fault: bool)
    requires cfg.Valid() && OnShm(s)
    ensures OnShm(Next(cfg, s, r, fault))
  {}

  lemma {:induction false} ShmOnly(cfg: Config, n: nat, moves: seq<Move>)
    requires cfg.Valid()
    ensures OnShm(After(cfg, Init(n, false), moves))
  {
    if moves != [] {
      var front, last := moves[..|moves| - 1], moves[|moves| - 1];
      ShmOnly(cfg, n, front);
      OnShmStep(cfg, After(cfg, Init(n, false), front), last.rank, last.fault);
    }
  }

  // ---- every rank gets there ----

  /** Nothing goes wrong that a rank could not know beforehand. */
  predicate FaultFree(moves: seq<Move>) {
    forall i :: 0 <= i < |moves| ==> !moves[i].fault
  }

  /** Each of the first `n` ranks has a turn. */
  ghost predicate Round(n: nat, moves: seq<Move>) {
    FaultFree(moves) && forall r :: 0 <= r < n ==> Moved(r, moves)
  }

  ghost predicate Moved(r: nat, moves: seq<Move>) {
    exists i :: 0 <= i < |moves| && moves[i].rank == r
  }

  /** All ranks are about to look for the file at `p`, and nobody has made it. */
  ghost predicate AtStart(s: State, p: Path) {
    && p !in s.files && (if p == Huge then s.hugeTurns else s.shmTurns) == 0
    && forall r :: 0 <= r < |s.ranks| ==> s.ranks[r] == Begin(p)
  }

  /** How far a rank has come on its way to the file. */
  function Stage(r: Rank): nat {
    match r
    case Begin(_) => 0
    case Create(_, _, _) => 1
    case Reopen(_) => 1
    case Wait(_, _) => 2
    case Opened(_, _) => 3
    case _ => 0
  }

  /** The file at `p` is inode `i`: its maker is about to size it, or it has its
      size. Every rank is on its way to it. */
  ghost predicate OnCourse(cfg: Config, s: State, p: Path, i: nat)
    requires cfg.Valid()
  {
    && p in s.files && s.files[p] == i && i < |s.inodes|
    && (forall r :: 0 <= r < |s.ranks| ==> Heading(s.ranks[r], p, i))
    && (HasSize(cfg, s, p, i) || exists r :: 0 <= r < |s.ranks| && s.ranks[r] == Create(p, i, 0))
  }

  predicate Heading(r: Rank, p: Path, i: nat) {
    r == Begin(p) || r == Create(p, i, 0) || r == Reopen(p) || r == Wait(p, i) || r == Opened(p, i)
  }

  /** The size the creator gives it: the least number of whole huge pages, or
      the size asked for. */
  ghost predicate HasSize(cfg: Config, s: State, p: Path, i: nat)
    requires cfg.Valid()
  {
    i < |s.inodes| && s.inodes[i].path == p && cfg.total <= s.inodes[i].size
    && (if p == Huge then s.inodes[i].size < cfg.total + cfg.hugePage && s.inodes[i].size % cfg.hugePage == 0
        else s.inodes[i].size == cfg.total)
  }

  ghost predicate AllPast(s: State, k: nat) {
    forall r :: 0 <= r < |s.ranks| ==> Stage(s.ranks[r]) >= k
  }

  /** The first turn makes the file. */
  lemma FirstTurn(cfg: Config, s: State, p: Path, r: nat)
    requires cfg.Valid() && AtStart(s, p) && r < |s.ranks|
    ensures var s' := Next(cfg, s, r, false);
            OnCourse(cfg, s', p, |s.inodes|) && |s'.ranks| == |s.ranks| && Stage(s'.ranks[r]) > 0
  {
    assert Next(cfg, s, r, false).ranks[r] == Create(p, |s.inodes|, 0);
  }

  /** A turn of a rank takes it further, unless it waits for a file without its
      size. */
  lemma OwnTurn(cfg: Config, s: State, p: Path, i: nat, r: nat)
    requires cfg.Valid() && cfg.Ok(p, 0) && p in s.files && s.files[p] == i && i < |s.inodes|
    requires r < |s.ranks| && Heading(s.ranks[r], p, i)
    ensures var s' := Next(cfg, s, r, false);
            && s'.files == s.files && |s'.inodes| == |s.inodes| && s'.ranks == s.ranks[r := s'.ranks[r]]
            && Heading(s'.ranks[r], p, i) && Stage(s'.ranks[r]) >= Stage(s.ranks[r])
            && (HasSize(cfg, s, p, i) || s.ranks[r] == Create(p, i, 0) ==> HasSize(cfg, s', p, i))
            && (Stage(s.ranks[r]) < 2 || (Stage(s.ranks[r]) == 2 && HasSize(cfg, s, p, i)) ==>
                  Stage(s'.ranks[r]) > Stage(s.ranks[r]))
  {
    hide Config.FileSize;
  }

  lemma TurnAdvances(cfg: Config, s: State, p: Path, i: nat, r: nat)
    requires cfg.Valid() && cfg.Ok(p, 0) && OnCourse(cfg, s, p, i) && r < |s.ranks|
    ensures var s' := Next(cfg, s, r, false);
            && OnCourse(cfg, s', p, i) && |s'.ranks| == |s.ranks| && s'.ranks == s.ranks[r := s'.ranks[r]]
            && Stage(s'.ranks[r]) >= Stage(s.ranks[r]) && (HasSize(cfg, s, p, i) ==> HasSize(cfg, s', p, i))
            && (Stage(s.ranks[r]) < 2 || (Stage(s.ranks[r]) == 2 && HasSize(cfg, s, p, i)) ==>
                  Stage(s'.ranks[r]) > Stage(s.ranks[r]))
  {
    hide Next, HasSize, Stage, Heading;
    assert Heading(s.ranks[r], p, i);
    OwnTurn(cfg, s, p, i, r);
    var s' := Next(cfg, s, r, false);
    if !HasSize(cfg, s', p, i) {
      var q :| 0 <= q < |s.ranks| && s.ranks[q] == Create(p, i, 0);
      assert s'.ranks[q] == Create(p, i, 0);
    }
  }

  lemma LastMove(cfg: Config, s: State, moves: seq<Move>, n: nat)
    requires cfg.Valid() && moves != [] && FaultFree(moves)
    ensures var front, last := moves[..|moves| - 1], moves[|moves| - 1];
            && FaultFree(front) && After(cfg, s, moves) == Next(cfg, After(cfg, s, front), last.rank, false)
            && forall r :: Moved(r, moves) ==> r == last.rank || Moved(r, front)
  {
    var front, last := moves[..|moves| - 1], moves[|moves| - 1];
    forall r | Moved(r, moves) ensures r == last.rank || Moved(r, front) {
      var i :| 0 <= i < |moves| && moves[i].rank == r;
      assert i < |front| ==> front[i].rank == r;
    }
  }

  /** When the first creator succeeds, the first turns bring all ranks that had
      one on course. */
  lemma {:induction false} FirstRound(cfg: Config, s: State, p: Path, moves: seq<Move>)
    requires cfg.Valid() && cfg.Ok(p, 0) && AtStart(s, p) && FaultFree(moves)
    ensures var s' := After(cfg, s, moves);
            && |s'.ranks| == |s.ranks|
            && (s' == s ==> forall r :: 0 <= r < |s.ranks| ==> !Moved(r, moves))
            && (s' != s ==> OnCourse(cfg, s', p, |s.inodes|))
            && (s' != s ==> forall r :: 0 <= r < |s.ranks| && Moved(r, moves) ==> Stage(s'.ranks[r]) > 0)
  {
    hide Next, OnCourse, Stage, FaultFree, Moved, AtStart;
    if moves == [] {
      NotMoved();
    } else {
      LastMove(cfg, s, moves, |s.ranks|);
      var front, last := moves[..|moves| - 1], moves[|moves| - 1];
      FirstRound(cfg, s, p, front);
      var before := After(cfg, s, front);
      if last.rank >= |s.ranks| {
        NoSuchRank(cfg, before, last.rank);
      } else if before == s {
        FirstTurn(cfg, s, p, last.rank);
        Underway(cfg, s, After(cfg, s, moves), p, |s.inodes|);
      } else {
        TurnAdvances(cfg, before, p, |s.inodes|, last.rank);
        Underway(cfg, s, After(cfg, s, moves), p, |s.inodes|);
      }
    }
  }

  lemma Underway(cfg: Config, s: State, s': State, p: Path, i: nat)
    requires cfg.Valid() && AtStart(s, p) && OnCourse(cfg, s', p, i)
    ensures s' != s
  {}

  lemma NotMoved()
    ensures forall r :: !Moved(r, [])
  {}

  lemma NoSuchRank(cfg: Config, s: State, r: nat)
    requires cfg.Valid() && r >= |s.ranks|
    ensures Next(cfg, s, r, false) == s
  {}

  /** A round takes every rank one stage further. */
  lemma {:induction false} RoundAdvances(cfg: Config, s: State, p: Path, i: nat, k: nat, moves: seq<Move>)
    requires cfg.Valid() && cfg.Ok(p, 0) && OnCourse(cfg, s, p, i) && FaultFree(moves)
    requires AllPast(s, k) && k <= 2 && (k == 2 ==> HasSize(cfg, s, p, i))
    ensures var s' := After(cfg, s, moves);
            && |s'.ranks| == |s.ranks| && OnCourse(cfg, s', p, i) && AllPast(s', k)
            && (HasSize(cfg, s, p, i) ==> HasSize(cfg, s', p, i))
            && forall r :: 0 <= r < |s.ranks| && Moved(r, moves) ==> Stage(s'.ranks[r]) > k
  {
    hide Next, OnCourse, HasSize, Stage, FaultFree, Moved;
    if moves == [] {
      NotMoved();
    } else {
      LastMove(cfg, s, moves, |s.ranks|);
      var front, last := moves[..|moves| - 1], moves[|moves| - 1];
      RoundAdvances(cfg, s, p, i, k, front);
      var before := After(cfg, s, front);
      if last.rank >= |s.ranks| {
        NoSuchRank(cfg, before, last.rank);
      } else {
        TurnAdvances(cfg, before, p, i, last.rank);
      }
    }
  }

  /** Once nobody creates the file any more, it has its size. */
  lemma SizedByThen(cfg: Config, s: State, p: Path, i: nat)
    requires cfg.Valid() && OnCourse(cfg, s, p, i) && AllPast(s, 2)
    ensures HasSize(cfg, s, p, i)
  {
    hide HasSize;
    forall r | 0 <= r < |s.ranks| ensures s.ranks[r] != Create(p, i, 0) {
      assert Stage(s.ranks[r]) >= 2;
    }
  }

  /** Every rank maps inode `i`, which has the size its path wants. */
  ghost predicate AllOpen(cfg: Config, s: State, p: Path, i: nat)
    requires cfg.Valid()
  {
    (s.ranks != [] ==> HasSize(cfg, s, p, i)) && forall r :: 0 <= r < |s.ranks| ==> s.ranks[r] == Opened(p, i)
  }

  lemma AllThere(cfg: Config, s: State, p: Path, i: nat)
    requires cfg.Valid() && OnCourse(cfg, s, p, i) && HasSize(cfg, s, p, i) && AllPast(s, 3)
    ensures AllOpen(cfg, s, p, i)
  {
    forall r | 0 <= r < |s.ranks| ensures s.ranks[r] == Opened(p, i) {
      assert Heading(s.ranks[r], p, i) && Stage(s.ranks[r]) >= 3;
    }
  }

  lemma {:induction false} AfterBoth(cfg: Config, s: State, a: seq<Move>, b: seq<Move>)
    requires cfg.Valid()
    ensures After(cfg, s, a + b) == After(cfg, After(cfg, s, a), b)
  {
    if b == [] {
      assert a + b == a;
    } else {
      assert (a + b)[..|a + b| - 1] == a + b[..|b| - 1];
      AfterBoth(cfg, s, a, b[..|b| - 1]);
    }
  }

  lemma {:induction false} OpenForGood(cfg: Config, s: State, p: Path, i: nat, moves: seq<Move>)
    requires cfg.Valid() && AllOpen(cfg, s, p, i)
    ensures After(cfg, s, moves) == s
  {
    if moves != [] {
      OpenForGood(cfg, s, p, i, moves[..|moves| - 1]);
    }
  }

  /** When the first creator succeeds, three turns of every rank are enough, one
      after the other in any order, whatever happens then. */
  lemma ThreeRounds(cfg: Config, s: State, p: Path, a: seq<Move>, b: seq<Move>, c: seq<Move>, rest: seq<Move>)
    requires cfg.Valid() && cfg.Ok(p, 0) && AtStart(s, p)
    requires Round(|s.ranks|, a) && Round(|s.ranks|, b) && Round(|s.ranks|, c)
    ensures var s' := After(cfg, s, a + b + c + rest);
            |s'.ranks| == |s.ranks| && AllOpen(cfg, s', p, |s.inodes|)
  {
    hide Next, After, OnCourse, HasSize, Stage, FaultFree, Moved, AtStart;
    var i := |s.inodes|;
    if s.ranks == [] {
      OpenForGood(cfg, s, p, i, a + b + c + rest);
    } else {
      var s1 := After(cfg, s, a);
      var s2 := After(cfg, s1, b);
      var s3 := After(cfg, s2, c);
      AfterBoth(cfg, s, a, b);
      AfterBoth(cfg, s, a + b, c);
      AfterBoth(cfg, s, a + b + c, rest);
      FirstRound(cfg, s, p, a);
      assert Moved(0, a);
      RoundAdvances(cfg, s1, p, i, 1, b);
      SizedByThen(cfg, s2, p, i);
      RoundAdvances(cfg, s2, p, i, 2, c);
      AllThere(cfg, s3, p, i);
      OpenForGood(cfg, s3, p, i, rest);
    }
  }

  /** The file is found by everybody: every fault-free run of three turns each
      ends with all ranks on the first file. */
  lemma AllRanksOpen(cfg: Config, n: nat, huge: bool, a: seq<Move>, b: seq<Move>, c: seq<Move>, rest: seq<Move>)
    requires cfg.Valid() && (if huge then cfg.hugeOk(0) else cfg.shmOk(0)) && Round(n, a) && Round(n, b) && Round(n, c)
    ensures var s := After(cfg, Init(n, huge), a + b + c + rest);
            |s.ranks| == n && AllOpen(cfg, s, if huge then Huge else Shm, 0)
  {
    hide Round, After, AllOpen;
    ThreeRounds(cfg, Init(n, huge), if huge then Huge else Shm, a, b, c, rest);
  }

  /** A creator that cannot size its file takes it away, if it can. A rank that
      joins opens the file at its next turn once this has its size. Both turn to
      the other path when the file is gone, a joiner when it reopens it or after
      its wait; one that waited in vain for a file that is still there gives up. */
  lemma RankTurns(cfg: Config, s: State, r: nat, fault: bool, again: bool)
    requires cfg.Valid() && r < |s.ranks|
    ensures var s' := Next(cfg, s, r, fault);
            var s'' := Next(cfg, s', r, again);
            match s.ranks[r]
            case Create(p, i, turn) =>
              && (i < |s.inodes| && cfg.Ok(p, turn) ==>
                    s'.ranks[r] == Opened(p, i) && s'.files == s.files && HasSize(cfg, s', p, i))
              && (i < |s.inodes| && !cfg.Ok(p, turn) ==>
                    && s''.ranks[r] == (if p == Huge then Begin(Shm) else Failed)
                    && s''.files == if again then s.files else s.files - {p})
            case Reopen(p) =>
              s'.ranks[r] == if p in s.files then Wait(p, s.files[p]) else if p == Huge then Begin(Shm) else Failed
            case Wait(p, i) =>
              if i < |s.inodes| && s.inodes[i].size >= cfg.total then s'.ranks[r] == Opened(p, i)
              else if !fault then s' == s
              else if p == Shm then s'.ranks[r] == Failed
              else s''.ranks[r] == if Huge in s.files then Failed else Begin(Shm)
            case _ => true
    ensures s.ranks[r].Reopen? || s.ranks[r].Wait? ==>
              var s' := Next(cfg, s, r, fault);
              s'.files == s.files && s'.inodes == s.inodes && s' == s.(ranks := s.ranks[r := s'.ranks[r]])
  {}

  // ---- a run that splits them ----

  function FailedFirst(n: nat, j: nat): State
    requires j <= n
  {
    State(map[], seq(j, _ => Inode(Huge, 0)), j, 0, seq(n, r => if r < j then Begin(Shm) else Begin(Huge)))
  }

  lemma AfterOne(cfg: Config, s: State, moves: seq<Move>, r: nat)
    requires cfg.Valid()
    ensures After(cfg, s, moves + [Move(r, false)]) == Next(cfg, After(cfg, s, moves), r, false)
  {
    assert (moves + [Move(r, false)])[..|moves|] == moves;
  }

  /** The first `j` ranks create the huge page file one after the other, fail,
      and turn to the other path. */
  lemma {:induction false} FailInTurn(cfg: Config, n: nat, j: nat) returns (moves: seq<Move>)
    requires cfg.Valid() && j <= n && forall k: nat :: k < j ==> !cfg.hugeOk(k)
    ensures FaultFree(moves) && After(cfg, Init(n, true), moves) == FailedFirst(n, j)
  {
    if j == 0 {
      moves := [];
      assert Init(n, true).ranks == FailedFirst(n, 0).ranks;
    } else {
      hide Next, After, Init, FailedFirst;
      var before := FailInTurn(cfg, n, j - 1);
      var r := j - 1;
      AfterOne(cfg, Init(n, true), before, r);
      AfterOne(cfg, Init(n, true), before + [Move(r, false)], r);
      AfterOne(cfg, Init(n, true), before + [Move(r, false)] + [Move(r, false)], r);
      moves := before + [Move(r, false)] + [Move(r, false)] + [Move(r, false)];
      OneMoreFails(cfg, n, j);
    }
  }

  /** The next rank creates the file, cannot size it, and unlinks it. */
  lemma OneMoreFails(cfg: Config, n: nat, j: nat)
    requires cfg.Valid() && 0 < j <= n && !cfg.hugeOk(j - 1)
    ensures Next(cfg, Next(cfg, Next(cfg, FailedFirst(n, j - 1), j - 1, false), j - 1, false), j - 1, false)
            == FailedFirst(n, j)
  {
    var r, i := j - 1, |FailedFirst(n, j - 1).inodes|;
    var s1 := Next(cfg, FailedFirst(n, j - 1), r, false);
    assert s1.ranks[r] == Create(Huge, i, r) && s1.files == map[Huge := i] && s1.hugeTurns == j;
    var s2 := Next(cfg, s1, r, false);
    assert s2.ranks[r] == Discard(Huge, i) && s2.inodes == s1.inodes && s2.files == s1.files;
    var s3 := Next(cfg, s2, r, false);
    assert s3.ranks == FailedFirst(n, j).ranks;
    assert s3.inodes == FailedFirst(n, j).inodes;
    assert s3.files == map[];
  }

  /** When every creator of the huge page file fails, there are runs in which all
      ranks end up on one file of the other path. */
  lemma AllRanksFallBack(cfg: Config, n: nat, a: seq<Move>, b: seq<Move>, c: seq<Move>, rest: seq<Move>)
    returns (first: seq<Move>)
    requires cfg.Valid() && cfg.shmOk(0) && forall k: nat :: k < n ==> !cfg.hugeOk(k)
    requires Round(n, a) && Round(n, b) && Round(n, c)
    ensures var s := After(cfg, Init(n, true), first + (a + b + c + rest));
            FaultFree(first) && |s.ranks| == n && AllOpen(cfg, s, Shm, n)
  {
    hide Round, After, AllOpen, Init;
    first := FailInTurn(cfg, n, n);
    AfterBoth(cfg, Init(n, true), first, a + b + c + rest);
    ThreeRounds(cfg, FailedFirst(n, n), Shm, a, b, c, rest);
  }

  /** The first creator fails, a later one succeeds: the first ends up with the
      other file. */
  lemma SplitRun(cfg: Config, n: nat, k: nat) returns (moves: seq<Move>)
    requires cfg.Valid() && 0 < k < n && cfg.hugeOk(k) && cfg.shmOk(0) && forall j: nat :: j < k ==> !cfg.hugeOk(j)
    ensures !OneFile(After(cfg, Init(n, true), moves))
  {
    var first := FailInTurn(cfg, n, k);
    var i := Init(n, true);
    var m1 := first + [Move(k, false)];
    var m2 := m1 + [Move(k, false)];
    var m3 := m2 + [Move(0, false)];
    moves := m3 + [Move(0, false)];
    AfterOne(cfg, i, first, k);
    AfterOne(cfg, i, m1, k);
    AfterOne(cfg, i, m2, 0);
    AfterOne(cfg, i, m3, 0);
    var s := After(cfg, i, moves);
    assert s.ranks[k] == Opened(Huge, k) && s.ranks[0] == Opened(Shm, k + 1);
  }

  /** The ranks agree in every run exactly when the first creator of the huge
      page file succeeds or none of them can. */
  lemma NeverSplitIff(cfg: Config, n: nat)
    requires cfg.Valid() && cfg.shmOk(0)
    ensures (forall moves :: OneFile(After(cfg, Init(n, true), moves)))
            <==> cfg.hugeOk(0) || forall k: nat :: k < n ==> !cfg.hugeOk(k)
  {
    if cfg.hugeOk(0) || forall k: nat :: k < n ==> !cfg.hugeOk(k) {
      forall moves ensures OneFile(After(cfg, Init(n, true), moves)) {
        NeverSplit(cfg, n, true, moves);
      }
    } else {
      var k := FirstOk(cfg, n);
      var moves := SplitRun(cfg, n, k);
    }
  }

  lemma FirstOk(cfg: Config, n: nat) returns (k: nat)
    requires !cfg.hugeOk(0) && exists k: nat :: k < n && cfg.hugeOk(k)
    ensures 0 < k < n && cfg.hugeOk(k) && forall j: nat :: j < k ==> !cfg.hugeOk(j)
  {
    k := 0;
    while !cfg.hugeOk(k)
      invariant k < n && forall j: nat :: j < k ==> !cfg.hugeOk(j)
      decreases n - k
    {
      k := k + 1;
    }
  }
}
