/** Who holds a CPU block: the transfers that read it and the one that writes it. */
module Claims {
  import opened Sequences
  import opened Blocks
  import opened SlotPool
  import opened CpuManager

  type Req = nat

  /** A transfer between the CPU tier and a secondary tier. */
  datatype Job = Job(keys: seq<Key>, slots: seq<nat>, isPromotion: bool, req: Req, tier: nat)

  /** Blocks reserved for a promotion that is not submitted yet. */
  datatype Pending = Pending(keys: seq<Key>, slots: seq<nat>)

  /** A store from the GPU that was prepared and not completed. It is no longer
      `live` once its deadline passed and its blocks were taken back; `job` is
      the id that stands for it, or -1 when it has no deadline. */
  datatype Batch = Batch(req: Req, keys: seq<Key>, live: bool, job: int, deadline: real)

  type Jobs = map<nat, Job>
  type Waiting = map<(nat, Req), Pending>
  type Batches = map<nat, Batch>

  // ---- counting ----

  /** How often each key occurs in all the lists together. */
  ghost function Tally<K(!new)>(m: map<K, seq<Key>>): multiset<Key> {
    if m == map[] then multiset{}
    else
      var k :| k in m;
      multiset(m[k]) + Tally(m - {k})
  }

  lemma {:induction false} TallyRemove<K(!new)>(m: map<K, seq<Key>>, k: K)
    requires k in m
    ensures Tally(m) == multiset(m[k]) + Tally(m - {k})
    decreases |m|
  {
    var c :| c in m && Tally(m) == multiset(m[c]) + Tally(m - {c});
    if c != k {
      TallyRemove(m - {c}, k);
      TallyRemove(m - {k}, c);
      assert (m - {c}) - {k} == (m - {k}) - {c};
    }
  }

  lemma TallyAdd<K(!new)>(m: map<K, seq<Key>>, k: K, keys: seq<Key>)
    requires k !in m
    ensures Tally(m[k := keys]) == Tally(m) + multiset(keys)
  {
    TallyRemove(m[k := keys], k);
    assert m[k := keys] - {k} == m;
  }

  lemma TallyHas<K(!new)>(m: map<K, seq<Key>>, k: K, key: Key)
    requires k in m && key in m[k]
    ensures Tally(m)[key] > 0
  {
    TallyRemove(m, k);
  }

  lemma {:induction false} DistinctCount(keys: seq<Key>, k: Key)
    requires Distinct(keys)
    ensures multiset(keys)[k] == if k in keys then 1 else 0
  {
    if keys != [] {
      DistinctCount(keys[..|keys| - 1], k);
      assert keys == keys[..|keys| - 1] + [keys[|keys| - 1]];
    }
  }

  lemma {:induction false} SplitCount(keys: seq<Key>, part: set<Key>)
    ensures multiset(keys) == multiset(Keep(keys, part)) + multiset(Drop(keys, part))
  {
    if keys != [] {
      var front := keys[..|keys| - 1];
      SplitCount(front, part);
      assert keys == front + [keys[|keys| - 1]];
      KeepSame(front, Elements(keys) - part, Elements(front) - part);
    }
  }

  function JobKeys(jobs: Jobs, promotions: bool): map<nat, seq<Key>> {
    map id | id in jobs && jobs[id].isPromotion == promotions :: jobs[id].keys
  }

  function WaitingKeys(waiting: Waiting): map<(nat, Req), seq<Key>> {
    map p | p in waiting :: waiting[p].keys
  }

  function LiveKeys(batches: Batches): map<nat, seq<Key>> {
    map b | b in batches && batches[b].live :: batches[b].keys
  }

  /** The readers: loads to the GPU and transfers to secondary tiers. */
  ghost function Reads(loads: multiset<Key>, jobs: Jobs): multiset<Key> {
    loads + Tally(JobKeys(jobs, false))
  }

  /** The writers: stores from the GPU, queued and submitted promotions. */
  ghost function Writes(batches: Batches, waiting: Waiting, jobs: Jobs): multiset<Key> {
    Tally(LiveKeys(batches)) + Tally(WaitingKeys(waiting)) + Tally(JobKeys(jobs, true))
  }

  /** A readable block counts its readers, a block at -1 has exactly one
      writer, and nobody claims a key the tier does not hold. */
  ghost predicate Accounts(table: Table, readers: multiset<Key>, writers: multiset<Key>) {
    forall k: Key ::
      && readers[k] == (if k in table && table[k].refCnt > 0 then table[k].refCnt else 0)
      && writers[k] == (if k in table && table[k].refCnt == -1 then 1 else 0)
  }

  /** The transfer addresses the slots its keys own. */
  ghost predicate Owns(table: Table, keys: seq<Key>, slots: seq<nat>) {
    |keys| == |slots| && forall i :: 0 <= i < |keys| ==> keys[i] in table && table[keys[i]].id == slots[i]
  }

  ghost predicate JobsOwn(table: Table, jobs: Jobs) {
    forall id :: id in jobs ==> Distinct(jobs[id].keys) && Owns(table, jobs[id].keys, jobs[id].slots)
  }

  ghost predicate WaitingOwn(table: Table, waiting: Waiting) {
    forall p :: p in waiting ==> Distinct(waiting[p].keys) && Owns(table, waiting[p].keys, waiting[p].slots)
  }

  ghost predicate BatchesDistinct(batches: Batches) {
    forall b :: b in batches ==> Distinct(batches[b].keys)
  }

  ghost predicate ClaimsHold(table: Table, loads: multiset<Key>, jobs: Jobs, waiting: Waiting, batches: Batches) {
    && Accounts(table, Reads(loads, jobs), Writes(batches, waiting, jobs))
    && JobsOwn(table, jobs) && WaitingOwn(table, waiting) && BatchesDistinct(batches)
  }

  // ---- what the claims mean, block by block ----

  function Holding<K(==,!new)>(m: map<K, seq<Key>>, key: Key): set<K> {
    set k | k in m && key in m[k]
  }

  lemma {:induction false} TallyIsHolding<K(!new)>(m: map<K, seq<Key>>, key: Key)
    requires forall k :: k in m ==> Distinct(m[k])
    ensures Tally(m)[key] == |Holding(m, key)|
    decreases |m|
  {
    if m == map[] {
      assert Holding(m, key) == {};
    } else {
      var k :| k in m && Tally(m) == multiset(m[k]) + Tally(m - {k});
      TallyIsHolding(m - {k}, key);
      DistinctCount(m[k], key);
      assert Holding(m - {k}, key) == Holding(m, key) - {k};
    }
  }

  /** A readable block counts its outstanding loads to the GPU and the jobs
      that read it for a secondary tier, and nobody writes it. A block at -1
      has one writer, and no reader: a live store, a queued promotion, or a
      promotion under way. A key that is not held is in no transfer. */
  lemma BlockClaims(table: Table, loads: multiset<Key>, jobs: Jobs, waiting: Waiting, batches: Batches, key: Key)
    requires ClaimsHold(table, loads, jobs, waiting, batches)
    ensures var readers := loads[key] + |set id | id in jobs && !jobs[id].isPromotion && key in jobs[id].keys|;
            var writers := |set b | b in batches && batches[b].live && key in batches[b].keys|
                           + |set p | p in waiting && key in waiting[p].keys|
                           + |set id | id in jobs && jobs[id].isPromotion && key in jobs[id].keys|;
            if key !in table then readers == writers == 0
            else if table[key].refCnt == -1 then readers == 0 && writers == 1
            else (table[key].refCnt >= 0 ==> readers == table[key].refCnt) && writers == 0
  {
    hide Tally;
    TallyIsHolding(JobKeys(jobs, false), key);
    TallyIsHolding(JobKeys(jobs, true), key);
    TallyIsHolding(WaitingKeys(waiting), key);
    TallyIsHolding(LiveKeys(batches), key);
    assert Holding(JobKeys(jobs, false), key) == set id | id in jobs && !jobs[id].isPromotion && key in jobs[id].keys;
    assert Holding(JobKeys(jobs, true), key) == set id | id in jobs && jobs[id].isPromotion && key in jobs[id].keys;
    assert Holding(WaitingKeys(waiting), key) == set p | p in waiting && key in waiting[p].keys;
    assert Holding(LiveKeys(batches), key) == set b | b in batches && batches[b].live && key in batches[b].keys;
    assert Accounts(table, Reads(loads, jobs), Writes(batches, waiting, jobs));
  }

  // ---- the four changes of the table ----

  lemma PinAccounts(table: Table, readers: multiset<Key>, writers: multiset<Key>, keys: seq<Key>)
    requires Accounts(table, readers, writers) && Distinct(keys)
    requires forall k :: k in keys ==> k in table && table[k].refCnt >= 0
    ensures Accounts(Pinned(table, keys), readers + multiset(keys), writers)
  {
    forall k: Key ensures multiset(keys)[k] == if k in keys then 1 else 0 { DistinctCount(keys, k); }
  }

  lemma UnpinAccounts(table: Table, readers: multiset<Key>, writers: multiset<Key>, keys: seq<Key>)
    requires Distinct(keys) && Accounts(table, readers + multiset(keys), writers)
    ensures forall k :: k in keys ==> k in table && table[k].refCnt > 0
    ensures Accounts(Unpinned(table, keys), readers, writers)
  {
    forall k: Key ensures multiset(keys)[k] == if k in keys then 1 else 0 { DistinctCount(keys, k); }
    forall k | k in keys ensures k in table && table[k].refCnt > 0 { assert (readers + multiset(keys))[k] > 0; }
  }

  lemma FinishAccounts(table: Table, readers: multiset<Key>, writers: multiset<Key>, keys: seq<Key>, success: bool)
    requires Distinct(keys) && Accounts(table, readers, writers + multiset(keys))
    ensures forall k :: k in keys ==> k in table && table[k].refCnt == -1
    ensures Accounts(Finished(table, keys, success), readers, writers)
    ensures Steady(table, Finished(table, keys, success), readers, writers)
  {
    forall k: Key ensures multiset(keys)[k] == if k in keys then 1 else 0 { DistinctCount(keys, k); }
    forall k | k in keys ensures k in table && table[k].refCnt == -1 { assert (writers + multiset(keys))[k] > 0; }
    forall k: Key | readers[k] > 0 || writers[k] > 0 ensures k !in keys && k in table {
      assert (writers + multiset(keys))[k] == writers[k] + multiset(keys)[k];
    }
  }

  lemma ReserveAccounts(table: Table, readers: multiset<Key>, writers: multiset<Key>, evicted: seq<Key>,
                        keys: seq<Key>, slots: seq<nat>)
    requires Accounts(table, readers, writers)
    requires |keys| == |slots| && Distinct(keys) && Elements(keys) !! table.Keys
    requires forall k :: k in evicted ==> k in IdleKeys(table)
    ensures var after := Reserved(table - Elements(evicted), keys, slots);
            && Accounts(after, readers, writers + multiset(keys))
            && Steady(table, after, readers, writers)
            && Owns(after, keys, slots)
  {
    var room := table - Elements(evicted);
    var after := Reserved(room, keys, slots);
    ReservedBlocks(room, keys, slots);
    forall k: Key ensures multiset(keys)[k] == if k in Elements(keys) then 1 else 0 { DistinctCount(keys, k); }
    ReservedEach(room, keys, slots);
    forall k: Key | readers[k] > 0 || writers[k] > 0 ensures k in room && after[k] == table[k] {
      assert k in table && table[k].refCnt != 0;
    }
  }

  /** Blocks that somebody claims stay where they are. */
  ghost predicate Steady(table: Table, after: Table, readers: multiset<Key>, writers: multiset<Key>) {
    forall k: Key :: readers[k] > 0 || writers[k] > 0 ==> k in table && k in after && after[k].id == table[k].id
  }

  lemma SteadyOwns(table: Table, after: Table, loads: multiset<Key>, jobs: Jobs, waiting: Waiting, batches: Batches)
    requires JobsOwn(table, jobs) && WaitingOwn(table, waiting)
    requires Steady(table, after, Reads(loads, jobs), Writes(batches, waiting, jobs))
    ensures JobsOwn(after, jobs) && WaitingOwn(after, waiting)
  {
    forall id | id in jobs ensures Owns(after, jobs[id].keys, jobs[id].slots) {
      forall i | 0 <= i < |jobs[id].keys|
        ensures jobs[id].keys[i] in after && after[jobs[id].keys[i]].id == jobs[id].slots[i]
      {
        TallyHas(JobKeys(jobs, jobs[id].isPromotion), id, jobs[id].keys[i]);
      }
    }
    forall p | p in waiting ensures Owns(after, waiting[p].keys, waiting[p].slots) {
      forall i | 0 <= i < |waiting[p].keys|
        ensures waiting[p].keys[i] in after && after[waiting[p].keys[i]].id == waiting[p].slots[i]
      {
        TallyHas(WaitingKeys(waiting), p, waiting[p].keys[i]);
      }
    }
  }

  lemma RecountOwns(table: Table, keys: seq<Key>, jobs: Jobs, waiting: Waiting)
    requires JobsOwn(table, jobs) && WaitingOwn(table, waiting)
    requires forall k :: k in keys ==> k in table
    ensures JobsOwn(Pinned(table, keys), jobs) && WaitingOwn(Pinned(table, keys), waiting)
    ensures JobsOwn(Unpinned(table, keys), jobs) && WaitingOwn(Unpinned(table, keys), waiting)
  {}

  lemma PinnedOwns(table: Table, keys: seq<Key>, slots: seq<nat>)
    requires Owns(table, keys, slots)
    ensures Owns(Pinned(table, keys), keys, slots)
  {}

  lemma JobJoins(jobs: Jobs, id: nat, job: Job)
    requires id !in jobs
    ensures var kind := job.isPromotion;
            && Tally(JobKeys(jobs[id := job], kind)) == Tally(JobKeys(jobs, kind)) + multiset(job.keys)
            && JobKeys(jobs[id := job], !kind) == JobKeys(jobs, !kind)
  {
    JobLeaves(jobs[id := job], id);
    assert jobs[id := job] - {id} == jobs;
  }

  lemma JobLeaves(jobs: Jobs, id: nat)
    requires id in jobs
    ensures var kind := jobs[id].isPromotion;
            && Tally(JobKeys(jobs, kind)) == Tally(JobKeys(jobs - {id}, kind)) + multiset(jobs[id].keys)
            && JobKeys(jobs - {id}, !kind) == JobKeys(jobs, !kind)
  {
    hide Tally;
    var kind := jobs[id].isPromotion;
    TallyRemove(JobKeys(jobs, kind), id);
    assert JobKeys(jobs, kind) - {id} == JobKeys(jobs - {id}, kind);
  }

  lemma BatchJoins(batches: Batches, b: nat, batch: Batch)
    requires b !in batches && batch.live
    ensures Tally(LiveKeys(batches[b := batch])) == Tally(LiveKeys(batches)) + multiset(batch.keys)
  {
    TallyAdd(LiveKeys(batches), b, batch.keys);
    assert LiveKeys(batches[b := batch]) == LiveKeys(batches)[b := batch.keys];
  }

  lemma BatchLeaves(batches: Batches, b: nat, after: Batches)
    requires b in batches && batches[b].live
    requires after == batches - {b} || after == batches[b := batches[b].(live := false)]
    ensures Tally(LiveKeys(batches)) == Tally(LiveKeys(after)) + multiset(batches[b].keys)
  {
    TallyRemove(LiveKeys(batches), b);
    assert LiveKeys(batches) - {b} == LiveKeys(after);
  }

  lemma WaitingLeaves(waiting: Waiting, p: (nat, Req))
    requires p in waiting
    ensures Tally(WaitingKeys(waiting)) == Tally(WaitingKeys(waiting - {p})) + multiset(waiting[p].keys)
  {
    TallyRemove(WaitingKeys(waiting), p);
    assert WaitingKeys(waiting) - {p} == WaitingKeys(waiting - {p});
  }

  lemma WaitingGrows(waiting: Waiting, p: (nat, Req), entry: Pending, more: Pending, key: Key)
    requires if p in waiting then entry == waiting[p] else entry.keys == []
    requires more.keys == entry.keys + [key]
    ensures Tally(WaitingKeys(waiting[p := more])) == Tally(WaitingKeys(waiting)) + multiset([key])
  {
    WaitingLeaves(waiting[p := more], p);
    assert waiting[p := more] - {p} == waiting - {p};
    if p in waiting {
      WaitingLeaves(waiting, p);
    } else {
      assert waiting - {p} == waiting;
    }
  }

  // ---- the life of each claim ----

  lemma LoadStarts(table: Table, loads: multiset<Key>, jobs: Jobs, waiting: Waiting, batches: Batches, keys: seq<Key>)
    requires ClaimsHold(table, loads, jobs, waiting, batches) && Distinct(keys)
    requires forall k :: k in keys ==> k in table && table[k].refCnt >= 0
    ensures ClaimsHold(Pinned(table, keys), loads + multiset(keys), jobs, waiting, batches)
  {
    hide Accounts, Tally, Distinct, Pinned, Unpinned, Finished, Reserved, Steady, JobsOwn, WaitingOwn;
    RecountOwns(table, keys, jobs, waiting);
    PinAccounts(table, Reads(loads, jobs), Writes(batches, waiting, jobs), keys);
    assert Reads(loads, jobs) + multiset(keys) == Reads(loads + multiset(keys), jobs);
  }

  lemma LoadEnds(table: Table, loads: multiset<Key>, jobs: Jobs, waiting: Waiting, batches: Batches, keys: seq<Key>)
    requires ClaimsHold(table, loads, jobs, waiting, batches) && Distinct(keys) && multiset(keys) <= loads
    ensures forall k :: k in keys ==> k in table && table[k].refCnt > 0
    ensures ClaimsHold(Unpinned(table, keys), loads - multiset(keys), jobs, waiting, batches)
  {
    hide Accounts, Tally, Distinct, Pinned, Unpinned, Finished, Reserved, Steady, JobsOwn, WaitingOwn;
    var rest := loads - multiset(keys);
    assert loads == rest + multiset(keys);
    assert Reads(loads, jobs) == Reads(rest, jobs) + multiset(keys);
    UnpinAccounts(table, Reads(rest, jobs), Writes(batches, waiting, jobs), keys);
    RecountOwns(table, keys, jobs, waiting);
  }

  lemma CascadeStarts(table: Table, loads: multiset<Key>, jobs: Jobs, waiting: Waiting, batches: Batches, id: nat,
                      job: Job)
    requires ClaimsHold(table, loads, jobs, waiting, batches)
    requires id !in jobs && !job.isPromotion && Distinct(job.keys) && Owns(table, job.keys, job.slots)
    requires forall k :: k in job.keys ==> k in table && table[k].refCnt >= 0
    ensures ClaimsHold(Pinned(table, job.keys), loads, jobs[id := job], waiting, batches)
  {
    hide Accounts, Tally, Distinct, Pinned, Unpinned, Finished, Reserved, Steady, JobKeys, LiveKeys, WaitingKeys,
        WaitingOwn;
    RecountOwns(table, job.keys, jobs, waiting);
    PinnedOwns(table, job.keys, job.slots);
    PinAccounts(table, Reads(loads, jobs), Writes(batches, waiting, jobs), job.keys);
    JobJoins(jobs, id, job);
    assert Reads(loads, jobs) + multiset(job.keys) == Reads(loads, jobs[id := job]);
  }

  lemma CascadeEnds(table: Table, loads: multiset<Key>, jobs: Jobs, waiting: Waiting, batches: Batches, id: nat)
    requires ClaimsHold(table, loads, jobs, waiting, batches) && id in jobs && !jobs[id].isPromotion
    ensures forall k :: k in jobs[id].keys ==> k in table && table[k].refCnt > 0
    ensures ClaimsHold(Unpinned(table, jobs[id].keys), loads, jobs - {id}, waiting, batches)
  {
    hide Accounts, Tally, Distinct, Pinned, Unpinned, Finished, Reserved, Steady, JobKeys, LiveKeys, WaitingKeys,
        WaitingOwn;
    var keys := jobs[id].keys;
    JobLeaves(jobs, id);
    assert Reads(loads, jobs) == Reads(loads, jobs - {id}) + multiset(keys);
    UnpinAccounts(table, Reads(loads, jobs - {id}), Writes(batches, waiting, jobs - {id}), keys);
    RecountOwns(table, keys, jobs, waiting);
  }

  lemma StoreStarts(table: Table, loads: multiset<Key>, jobs: Jobs, waiting: Waiting, batches: Batches,
                    evicted: seq<Key>, slots: seq<nat>, b: nat, batch: Batch)
    requires ClaimsHold(table, loads, jobs, waiting, batches)
    requires b !in batches && batch.live && |batch.keys| == |slots|
    requires Distinct(batch.keys) && Elements(batch.keys) !! table.Keys
    requires forall k :: k in evicted ==> k in IdleKeys(table)
    ensures ClaimsHold(Reserved(table - Elements(evicted), batch.keys, slots), loads, jobs, waiting, batches[b := batch])
  {
    hide Accounts, Tally, Distinct, Elements, KeysAt, Reads, Writes, Reserved, Steady, JobsOwn, WaitingOwn, Owns;
    ReserveAccounts(table, Reads(loads, jobs), Writes(batches, waiting, jobs), evicted, batch.keys, slots);
    SteadyOwns(table, Reserved(table - Elements(evicted), batch.keys, slots), loads, jobs, waiting, batches);
    WriterJoins(batches, waiting, jobs, b, batch);
  }

  lemma WriterJoins(batches: Batches, waiting: Waiting, jobs: Jobs, b: nat, batch: Batch)
    requires b !in batches && batch.live
    ensures Writes(batches[b := batch], waiting, jobs) == Writes(batches, waiting, jobs) + multiset(batch.keys)
  {
    hide Tally, LiveKeys, WaitingKeys, JobKeys;
    BatchJoins(batches, b, batch);
  }

  /** A live store ends, with the batch gone or only marked as taken back. */
  lemma StoreEnds(table: Table, loads: multiset<Key>, jobs: Jobs, waiting: Waiting, batches: Batches, b: nat,
                  success: bool, after: Batches)
    requires ClaimsHold(table, loads, jobs, waiting, batches) && b in batches && batches[b].live
    requires after == batches - {b} || after == batches[b := batches[b].(live := false)]
    ensures forall k :: k in batches[b].keys ==> k in table && table[k].refCnt == -1
    ensures ClaimsHold(Finished(table, batches[b].keys, success), loads, jobs, waiting, after)
  {
    hide Accounts, Tally, Distinct, Pinned, Unpinned, Finished, Reserved, Steady, JobKeys, LiveKeys, WaitingKeys,
        JobsOwn, WaitingOwn, Owns;
    var keys := batches[b].keys;
    BatchLeaves(batches, b, after);
    assert Writes(batches, waiting, jobs) == Writes(after, waiting, jobs) + multiset(keys);
    FinishAccounts(table, Reads(loads, jobs), Writes(after, waiting, jobs), keys, success);
    SteadyOwns(table, Finished(table, keys, success), loads, jobs, waiting, after);
  }

  /** A batch that was taken back claims nothing, so it may disappear. */
  lemma DeadStoreLeaves(table: Table, loads: multiset<Key>, jobs: Jobs, waiting: Waiting, batches: Batches, b: nat)
    requires ClaimsHold(table, loads, jobs, waiting, batches) && b in batches && !batches[b].live
    ensures ClaimsHold(table, loads, jobs, waiting, batches - {b})
  {
    assert LiveKeys(batches - {b}) == LiveKeys(batches);
  }

  function Entry(waiting: Waiting, p: (nat, Req)): Pending {
    if p in waiting then waiting[p] else Pending([], [])
  }

  lemma PromotionQueued(table: Table, loads: multiset<Key>, jobs: Jobs, waiting: Waiting, batches: Batches,
                        evicted: seq<Key>, key: Key, slot: nat, p: (nat, Req), more: Pending)
    requires ClaimsHold(table, loads, jobs, waiting, batches)
    requires key !in table && forall k :: k in evicted ==> k in IdleKeys(table)
    requires more == Pending(Entry(waiting, p).keys + [key], Entry(waiting, p).slots + [slot])
    ensures ClaimsHold(Reserved(table - Elements(evicted), [key], [slot]), loads, jobs, waiting[p := more], batches)
  {
    var after := Reserved(table - Elements(evicted), [key], [slot]);
    hide Accounts, Reads, Writes, Reserved, Steady, JobsOwn, WaitingOwn, Owns, KeysAt;
    ReserveOne(table, Reads(loads, jobs), Writes(batches, waiting, jobs), evicted, key, slot);
    SteadyOwns(table, after, loads, jobs, waiting, batches);
    QueuedWrites(batches, waiting, jobs, p, key, more);
    EntryGrows(table, after, waiting, p, key, slot, more);
  }

  lemma QueuedWrites(batches: Batches, waiting: Waiting, jobs: Jobs, p: (nat, Req), key: Key, more: Pending)
    requires more.keys == Entry(waiting, p).keys + [key]
    ensures Writes(batches, waiting[p := more], jobs) == Writes(batches, waiting, jobs) + multiset([key])
  {
    hide Tally;
    WaitingGrows(waiting, p, Entry(waiting, p), more, key);
  }

  lemma ReserveOne(table: Table, readers: multiset<Key>, writers: multiset<Key>, evicted: seq<Key>, key: Key, slot: nat)
    requires Accounts(table, readers, writers)
    requires key !in table && forall k :: k in evicted ==> k in IdleKeys(table)
    ensures var after := Reserved(table - Elements(evicted), [key], [slot]);
            && Accounts(after, readers, writers + multiset([key]))
            && Steady(table, after, readers, writers)
            && Owns(after, [key], [slot])
  {
    assert Elements([key]) == {key};
    ReserveAccounts(table, readers, writers, evicted, [key], [slot]);
  }

  lemma EntryGrows(table: Table, after: Table, waiting: Waiting, p: (nat, Req), key: Key, slot: nat, more: Pending)
    requires WaitingOwn(table, waiting) && WaitingOwn(after, waiting) && Owns(after, [key], [slot]) && key !in table
    requires more == Pending(Entry(waiting, p).keys + [key], Entry(waiting, p).slots + [slot])
    ensures WaitingOwn(after, waiting[p := more])
  {
    var entry := Entry(waiting, p);
    assert [key][0] in after && after[[key][0]].id == [slot][0];
    assert key !in entry.keys;
    assert Owns(after, more.keys, more.slots);
  }

  lemma PromotionSubmitted(table: Table, loads: multiset<Key>, jobs: Jobs, waiting: Waiting, batches: Batches,
                           p: (nat, Req), id: nat, job: Job)
    requires ClaimsHold(table, loads, jobs, waiting, batches) && p in waiting && id !in jobs
    requires job.isPromotion && job.keys == waiting[p].keys && job.slots == waiting[p].slots
    ensures ClaimsHold(table, loads, jobs[id := job], waiting - {p}, batches)
  {
    hide Accounts, Tally, Distinct, Pinned, Unpinned, Finished, Reserved, Steady, JobKeys, LiveKeys, WaitingKeys;
    WaitingLeaves(waiting, p);
    JobJoins(jobs, id, job);
    assert Writes(batches, waiting, jobs) == Writes(batches, waiting - {p}, jobs[id := job]);
  }

  /** A promotion ends: some of its keys arrived, the others are given up. */
  lemma PromotionEnds(table: Table, loads: multiset<Key>, jobs: Jobs, waiting: Waiting, batches: Batches, id: nat,
                      arrived: set<Key>)
    requires ClaimsHold(table, loads, jobs, waiting, batches) && id in jobs && jobs[id].isPromotion
    ensures var ok, failed := Keep(jobs[id].keys, arrived), Drop(jobs[id].keys, arrived);
            ClaimsHold(Finished(Finished(table, ok, true), failed, false), loads, jobs - {id}, waiting, batches)
  {
    var keys, rest := jobs[id].keys, jobs - {id};
    var ok, failed := Keep(keys, arrived), Drop(keys, arrived);
    JobLeaves(jobs, id);
    SplitCount(keys, arrived);
    KeepDistinct(keys, arrived);
    DropDistinct(keys, arrived);
    var readers, writers := Reads(loads, rest), Writes(batches, waiting, rest);
    assert Reads(loads, jobs) == readers;
    assert Writes(batches, waiting, jobs) == (writers + multiset(failed)) + multiset(ok);
    FinishAccounts(table, readers, writers + multiset(failed), ok, true);
    var middle := Finished(table, ok, true);
    FinishAccounts(middle, readers, writers, failed, false);
    assert Steady(table, Finished(middle, failed, false), readers, writers) by {
      assert forall k :: writers[k] > 0 ==> (writers + multiset(failed))[k] > 0;
    }
    SteadyOwns(table, Finished(middle, failed, false), loads, rest, waiting, batches);
  }

  /** Completing a store that was taken back is harmless exactly when none of
      its keys is being written again. */
  lemma LateStoreHarmlessIff(table: Table, loads: multiset<Key>, jobs: Jobs, waiting: Waiting, batches: Batches,
                             keys: seq<Key>, success: bool)
    requires ClaimsHold(table, loads, jobs, waiting, batches)
    ensures ClaimsHold(Finished(table, keys, success), loads, jobs, waiting, batches)
            <==> forall k :: k in keys ==> k !in WritingBlocks(table)
  {
    if k :| k in keys && k in WritingBlocks(table) {
      assert Writes(batches, waiting, jobs)[k] == 1;
      assert k in Finished(table, keys, success) ==> Finished(table, keys, success)[k].refCnt == 0;
    } else {
      assert Finished(table, keys, success) == table;
    }
  }

  function WritingBlocks(table: Table): set<Key> { KeysAt(table, -1) }

  /** The cascade that follows a late successful completion finds its blocks
      readable exactly when the tier holds them all; otherwise it stops on an
      assertion. */
  lemma LateStoreCascadesIff(table: Table, keys: seq<Key>)
    requires forall k :: k in table ==> table[k].refCnt >= -1
    ensures var after := Finished(table, keys, true);
            (forall k :: k in keys ==> k in after && after[k].Ready()) <==> forall k :: k in keys ==> k in table
  {}

  /** The tier completes a store that was taken back as its callers expect: none
      of its keys is being written, and if it succeeded they are all held. A
      store that was not taken back always may complete. */
  ghost predicate MayComplete(table: Table, batch: Batch, keys: seq<Key>, success: bool) {
    batch.live || ((forall k :: k in keys ==> k !in WritingBlocks(table))
                   && (success ==> forall k :: k in keys ==> k in table))
  }

  /** A store of block 1 was taken back by its deadline. */
  function OldStore(): Batches { map[0 := Batch(5, [1], false, 3, 0.0)] }

  lemma OnePromotion(job: Job)
    requires job == Job([1], [0], true, 0, 0)
    ensures Writes(OldStore(), map[], map[7 := job]) == multiset{1} && Reads(multiset{}, map[7 := job]) == multiset{}
  {
    var none: Jobs := map[];
    assert none[7 := job] == map[7 := job];
    JobJoins(none, 7, job);
    assert JobKeys(none, true) == map[] && JobKeys(none, false) == map[];
    assert LiveKeys(OldStore()) == map[] && WaitingKeys(map[]) == map[];
  }

  /** Block 1 is being promoted when the completion of that store arrives: the
      block turns readable while its writer is still at work. */
  lemma LateStoreExample()
    ensures ClaimsHold(map[1 := Block(-1, 0)], multiset{}, map[7 := Job([1], [0], true, 0, 0)], map[], OldStore())
    ensures !ClaimsHold(Finished(map[1 := Block(-1, 0)], OldStore()[0].keys, true), multiset{},
                        map[7 := Job([1], [0], true, 0, 0)], map[], OldStore())
  {
    hide ClaimsHold;
    var table: Table := map[1 := Block(-1, 0)];
    OneBeingPromoted();
    assert 1 in OldStore()[0].keys && 1 in WritingBlocks(table);
    LateStoreHarmlessIff(table, multiset{}, map[7 := Job([1], [0], true, 0, 0)], map[], OldStore(),
                         OldStore()[0].keys, true);
  }

  lemma OneBeingPromoted()
    ensures ClaimsHold(map[1 := Block(-1, 0)], multiset{}, map[7 := Job([1], [0], true, 0, 0)], map[], OldStore())
  {
    hide Writes, Reads;
    OnePromotion(Job([1], [0], true, 0, 0));
  }
}
