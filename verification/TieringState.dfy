/** The manager's tables of job ids, deadlines and suppressed keys, as values. */
module TieringState {
  import opened Sequences
  import opened Blocks
  import opened SlotPool
  import opened Arc
  import opened CachePolicies
  import opened CpuManager
  import opened Claims
  import opened RequestLog

  /** What a tier reports of a job it has ended. */
  datatype JobResult = JobResult(job: nat, success: bool, successful: seq<Key>)

  /** A job result and the tier that hands it over. */
  datatype Report = Report(tier: nat, result: JobResult)

  function JobsOf(reports: seq<Report>): (r: set<nat>)
    ensures forall i :: 0 <= i < |reports| ==> reports[i].result.job in r
  {
    set i | 0 <= i < |reports| :: reports[i].result.job
  }

  /** A promotion brings all its keys, or those its report names. */
  function ArrivedKeys(job: Job, result: JobResult): set<Key> {
    if result.success then Elements(job.keys) else Elements(result.successful)
  }

  /** How long the id of a job taken back stays known after it was drained. */
  const RETENTION := 600.0

  function Put<V>(m: map<Key, V>, keys: seq<Key>, value: V): (r: map<Key, V>)
    ensures r.Keys == m.Keys + Elements(keys)
    ensures forall k :: k in r ==> r[k] == if k in keys then value else m[k]
  {
    m + map k | k in keys :: value
  }

  /** No promotion of `keys` is tried again before the time noted here. */
  function Suppressed(failures: map<Key, real>, keys: seq<Key>, now: real, ttl: real): map<Key, real> {
    if ttl <= 0.0 then failures else Put(failures, keys, now + ttl)
  }

  function AllSuppressed(failures: map<Key, real>, keys: set<Key>, now: real, ttl: real): map<Key, real> {
    if ttl <= 0.0 then failures else failures + map k | k in keys :: now + ttl
  }

  /** The wedged promotions are being taken back: `gone` are those so far. */
  ghost predicate ExpiredSoFar(table0: Table, jobs0: Jobs, retracted0: set<nat>, failures0: map<Key, real>,
                               table: Table, jobs: Jobs, retracted: set<nat>, failures: map<Key, real>,
                               gone: set<nat>, now: real, ttl: real) {
    && table == table0 - KeysOf(jobs0, gone) && jobs == jobs0 - gone && retracted == retracted0 + gone
    && failures == AllSuppressed(failures0, KeysOf(jobs0, gone), now, ttl)
  }

  lemma NoneExpired(table: Table, jobs: Jobs, retracted: set<nat>, failures: map<Key, real>, now: real, ttl: real)
    ensures ExpiredSoFar(table, jobs, retracted, failures, table, jobs, retracted, failures, {}, now, ttl)
  {
    assert KeysOf(jobs, {}) == {};
  }

  lemma OneExpired(table0: Table, jobs0: Jobs, retracted0: set<nat>, failures0: map<Key, real>,
                   table: Table, jobs: Jobs, retracted: set<nat>, failures: map<Key, real>,
                   gone: set<nat>, now: real, ttl: real, expired: set<nat>, id: nat)
    requires ExpiredSoFar(table0, jobs0, retracted0, failures0, table, jobs, retracted, failures, gone, now, ttl)
    requires id in expired && id !in gone && expired <= jobs0.Keys
    ensures id in jobs && jobs[id] == jobs0[id]
    ensures ExpiredSoFar(table0, jobs0, retracted0, failures0, table - Elements(jobs[id].keys), jobs - {id},
                         retracted + {id}, Suppressed(failures, jobs[id].keys, now, ttl), gone + {id}, now, ttl)
  {
    MoreSuppressed(jobs0, failures0, gone, id, now, ttl);
    assert table - Elements(jobs[id].keys) == table0 - KeysOf(jobs0, gone + {id});
  }

  lemma AllExpired(table0: Table, jobs0: Jobs, retracted0: set<nat>, failures0: map<Key, real>,
                   table: Table, jobs: Jobs, retracted: set<nat>, failures: map<Key, real>,
                   gone: set<nat>, now: real, ttl: real)
    requires ExpiredSoFar(table0, jobs0, retracted0, failures0, table, jobs, retracted, failures, gone, now, ttl)
    ensures table == table0 - KeysOf(jobs0, gone) && jobs == jobs0 - gone && retracted == retracted0 + gone
    ensures failures == AllSuppressed(failures0, KeysOf(jobs0, gone), now, ttl)
  {}

  lemma MoreSuppressed(jobs: Jobs, failures: map<Key, real>, ids: set<nat>, id: nat, now: real, ttl: real)
    requires id in jobs
    ensures KeysOf(jobs, ids + {id}) == KeysOf(jobs, ids) + Elements(jobs[id].keys)
    ensures AllSuppressed(failures, KeysOf(jobs, ids + {id}), now, ttl)
            == Suppressed(AllSuppressed(failures, KeysOf(jobs, ids), now, ttl), jobs[id].keys, now, ttl)
  {
    KeysOfOne(jobs, ids, id);
    hide KeysOf;
    assert forall k :: k in Elements(jobs[id].keys) <==> k in jobs[id].keys;
  }

  /** A promotion ends: the keys that arrived are readable, the others gone. */
  function Arrival(table: Table, job: Job, result: JobResult): Table {
    var arrived := ArrivedKeys(job, result);
    Finished(Finished(table, Keep(job.keys, arrived), true), Drop(job.keys, arrived), false)
  }

  /** What one report does to the blocks: nothing, when its job was taken back. */
  function ReportEffect(table: Table, jobs: Jobs, r: Report): Table {
    if r.result.job !in jobs then table
    else
      var job := jobs[r.result.job];
      if job.isPromotion then Arrival(table, job, r.result)
      else if Elements(job.keys) <= table.Keys then Unpinned(table, job.keys)
      else table
  }

  /** ... and to the keys whose promotion is suppressed. */
  function FailureEffect(failures: map<Key, real>, jobs: Jobs, r: Report, now: real, ttl: real): map<Key, real> {
    if r.result.job !in jobs || !jobs[r.result.job].isPromotion then failures
    else
      var arrived := ArrivedKeys(jobs[r.result.job], r.result);
      Suppressed(failures - arrived, Drop(jobs[r.result.job].keys, arrived), now, ttl)
  }

  function ReportsEffect(table: Table, jobs: Jobs, reports: seq<Report>): Table {
    if reports == [] then table
    else ReportEffect(ReportsEffect(table, jobs, reports[..|reports| - 1]), jobs, reports[|reports| - 1])
  }

  function FailuresEffect(failures: map<Key, real>, jobs: Jobs, reports: seq<Report>, now: real, ttl: real): map<Key,
      real> {
    if reports == [] then failures
    else FailureEffect(FailuresEffect(failures, jobs, reports[..|reports| - 1], now, ttl), jobs,
        reports[|reports| - 1], now, ttl)
  }

  lemma EffectsStep(table: Table, failures: map<Key, real>, jobs0: Jobs, jobs: Jobs, reports: seq<Report>, i: nat,
                    now: real, ttl: real)
    requires i < |reports| && jobs == jobs0 - JobsOf(reports[..i])
    requires forall j :: 0 <= j < i ==> reports[j].result.job != reports[i].result.job
    ensures ReportEffect(ReportsEffect(table, jobs0, reports[..i]), jobs, reports[i]) == ReportsEffect(table, jobs0,
        reports[..i + 1])
    ensures FailureEffect(FailuresEffect(failures, jobs0, reports[..i], now, ttl), jobs, reports[i], now, ttl)
            == FailuresEffect(failures, jobs0, reports[..i + 1], now, ttl)
  {
    hide Arrival, Suppressed;
    assert reports[..i + 1][..i] == reports[..i];
    assert reports[i].result.job !in JobsOf(reports[..i]);
  }

  /** The reports are being taken in: the first `i` are. */
  ghost predicate ConsumedSoFar(table0: Table, jobs0: Jobs, startedAt0: map<nat, real>, retracted0: set<nat>,
                                drained0: map<nat, real>, failures0: map<Key, real>,
                                table: Table, jobs: Jobs, startedAt: map<nat, real>, retracted: set<nat>,
                                drained: map<nat, real>, failures: map<Key, real>,
                                reports: seq<Report>, i: nat, now: real, ttl: real)
    requires i <= |reports|
  {
    var ids := JobsOf(reports[..i]);
    && jobs == jobs0 - ids && startedAt == startedAt0 - ids && retracted == retracted0 - ids && drained == drained0 - ids
    && table == ReportsEffect(table0, jobs0, reports[..i])
    && failures == FailuresEffect(failures0, jobs0, reports[..i], now, ttl)
  }

  lemma NoneConsumed(table: Table, jobs: Jobs, startedAt: map<nat, real>, retracted: set<nat>, drained: map<nat, real>,
                     failures: map<Key, real>, reports: seq<Report>, now: real, ttl: real)
    ensures ConsumedSoFar(table, jobs, startedAt, retracted, drained, failures,
                          table, jobs, startedAt, retracted, drained, failures, reports, 0, now, ttl)
  {
    assert reports[..0] == [];
  }

  lemma OneConsumed(table0: Table, jobs0: Jobs, startedAt0: map<nat, real>, retracted0: set<nat>,
                    drained0: map<nat, real>, failures0: map<Key, real>,
                    table: Table, jobs: Jobs, startedAt: map<nat, real>, retracted: set<nat>,
                    drained: map<nat, real>, failures: map<Key, real>,
                    reports: seq<Report>, i: nat, now: real, ttl: real)
    requires i < |reports| && forall j :: 0 <= j < i ==> reports[j].result.job != reports[i].result.job
    requires ConsumedSoFar(table0, jobs0, startedAt0, retracted0, drained0, failures0,
                           table, jobs, startedAt, retracted, drained, failures, reports, i, now, ttl)
    ensures var id := reports[i].result.job;
            ConsumedSoFar(table0, jobs0, startedAt0, retracted0, drained0, failures0,
                          ReportEffect(table, jobs, reports[i]), jobs - {id}, startedAt - {id}, retracted - {id},
                          drained - {id}, FailureEffect(failures, jobs, reports[i], now, ttl), reports, i + 1, now, ttl)
  {
    EffectsStep(table0, failures0, jobs0, jobs, reports, i, now, ttl);
    OneMore(reports, i);
    hide ReportEffect, FailureEffect, JobsOf, ReportsEffect, FailuresEffect;
  }

  lemma AllConsumed(table0: Table, jobs0: Jobs, startedAt0: map<nat, real>, retracted0: set<nat>,
                    drained0: map<nat, real>, failures0: map<Key, real>,
                    table: Table, jobs: Jobs, startedAt: map<nat, real>, retracted: set<nat>,
                    drained: map<nat, real>, failures: map<Key, real>,
                    reports: seq<Report>, now: real, ttl: real)
    requires ConsumedSoFar(table0, jobs0, startedAt0, retracted0, drained0, failures0,
                           table, jobs, startedAt, retracted, drained, failures, reports, |reports|, now, ttl)
    ensures var ids := JobsOf(reports);
            jobs == jobs0 - ids && startedAt == startedAt0 - ids && retracted == retracted0 - ids
                && drained == drained0 - ids
    ensures table == ReportsEffect(table0, jobs0, reports) && failures == FailuresEffect(failures0, jobs0, reports,
        now, ttl)
  {
    assert reports[..|reports|] == reports;
  }

  function KeysOf(jobs: Jobs, ids: set<nat>): set<Key> {
    set id, k | id in ids && id in jobs && k in jobs[id].keys :: k
  }

  lemma KeysOfOne(jobs: Jobs, ids: set<nat>, id: nat)
    requires id in jobs
    ensures KeysOf(jobs, ids + {id}) == KeysOf(jobs, ids) + Elements(jobs[id].keys)
  {}

  /** The promotions that have been under way for longer than `ttl`. */
  function Wedged(jobs: Jobs, startedAt: map<nat, real>, ttl: real, now: real): (r: set<nat>)
    ensures forall id :: id in r ==> id in jobs && jobs[id].isPromotion
  {
    if ttl <= 0.0 then {}
    else set id | id in jobs && jobs[id].isPromotion && id in startedAt && now - startedAt[id] > ttl
  }

  /** Every id was handed out once. A job under way, one taken back and one
      whose id was drained are different jobs, and no store shares its id. */
  ghost predicate IdsHold(counter: nat, jobs: Jobs, startedAt: map<nat, real>, retracted: set<nat>,
                          drained: map<nat, real>, batches: Batches, nextBatch: nat, numTiers: nat) {
    && startedAt.Keys == jobs.Keys
    && (forall id :: id in jobs ==> id < counter && jobs[id].tier < numTiers && id !in retracted && id !in drained)
    && (forall id :: id in retracted ==> id < counter) && (forall id :: id in drained ==> id < counter)
    && (forall b :: b in batches ==> b < nextBatch && batches[b].job < counter && batches[b].job !in jobs)
  }

  /** The live store a key with a deadline belongs to. */
  ghost predicate OwnedBy(k: Key, owner: map<Key, (Req, nat)>, batches: Batches, c: nat) {
    k in owner && c in batches && batches[c].live && batches[c].job == owner[k].1 && k in batches[c].keys
  }

  ghost predicate ArmedAlike(deadline: map<Key, real>, owner: map<Key, (Req, nat)>, batch: Batch) {
    forall k :: k in batch.keys ==>
      k in deadline && k in owner && deadline[k] == batch.deadline && owner[k] == (batch.req, batch.job)
  }

  /** Stores have deadlines only when these are switched on, and share no id. */
  ghost predicate OwnJobs(batches: Batches, timed: bool) {
    && (forall b :: b in batches ==> (batches[b].job >= 0 <==> timed))
    && (forall b1, b2 :: b1 in batches && b2 in batches && timed && batches[b1].job == batches[b2].job ==> b1 == b2)
  }

  /** The keys of a live store with a deadline, and no others, are armed, all
      with the deadline and the id of their store. */
  ghost predicate ArmedHold(deadline: map<Key, real>, owner: map<Key, (Req, nat)>, batches: Batches, timed: bool) {
    && deadline.Keys == owner.Keys
    && OwnJobs(batches, timed)
    && (forall b :: b in batches && batches[b].live && timed ==> ArmedAlike(deadline, owner, batches[b]))
    && (forall k :: k in owner ==> exists b :: OwnedBy(k, owner, batches, b))
  }

  ghost predicate TiersExist(waiting: Waiting, states: map<Req, ReqState>, numTiers: nat) {
    && (forall p :: p in waiting ==> p.0 < numTiers)
    && (forall r :: r in states ==> forall t :: t in states[r].requestLevel ==> t < numTiers)
  }

  // ---- ids ----

  lemma IdsApart(counter: nat, jobs: Jobs, startedAt: map<nat, real>, retracted: set<nat>,
                 drained: map<nat, real>, batches: Batches, nextBatch: nat, numTiers: nat, id: nat)
    requires IdsHold(counter, jobs, startedAt, retracted, drained, batches, nextBatch, numTiers)
    ensures id in retracted || id in drained ==>
              && jobs - {id} == jobs && startedAt - {id} == startedAt
              && IdsHold(counter, jobs, startedAt, retracted - {id}, drained - {id}, batches, nextBatch, numTiers)
    ensures id in jobs ==> retracted - {id} == retracted && drained - {id} == drained
  {}

  lemma IdsForgetJob(counter: nat, jobs: Jobs, startedAt: map<nat, real>, retracted: set<nat>,
                     drained: map<nat, real>, batches: Batches, nextBatch: nat, numTiers: nat, id: nat)
    requires IdsHold(counter, jobs, startedAt, retracted, drained, batches, nextBatch, numTiers) && id in jobs
    ensures IdsHold(counter, jobs - {id}, startedAt - {id}, retracted, drained, batches, nextBatch, numTiers)
    ensures IdsHold(counter, jobs - {id}, startedAt - {id}, retracted + {id}, drained, batches, nextBatch, numTiers)
  {}

  lemma IdsNewJob(counter: nat, jobs: Jobs, startedAt: map<nat, real>, retracted: set<nat>,
                  drained: map<nat, real>, batches: Batches, nextBatch: nat, numTiers: nat, job: Job, now: real)
    requires IdsHold(counter, jobs, startedAt, retracted, drained, batches, nextBatch, numTiers) && job.tier < numTiers
    ensures counter !in jobs
    ensures IdsHold(counter + 1, jobs[counter := job], startedAt[counter := now], retracted, drained, batches,
                    nextBatch, numTiers)
  {}

  lemma IdsNewBatch(counter: nat, jobs: Jobs, startedAt: map<nat, real>, retracted: set<nat>,
                    drained: map<nat, real>, batches: Batches, nextBatch: nat, numTiers: nat, batch: Batch, counter': nat)
    requires IdsHold(counter, jobs, startedAt, retracted, drained, batches, nextBatch, numTiers)
    requires (batch.job == -1 && counter' == counter) || (batch.job == counter && counter' == counter + 1)
    ensures nextBatch !in batches
    ensures IdsHold(counter', jobs, startedAt, retracted, drained, batches[nextBatch := batch], nextBatch + 1, numTiers)
  {}

  lemma IdsDeadBatch(counter: nat, jobs: Jobs, startedAt: map<nat, real>, retracted: set<nat>,
                     drained: map<nat, real>, batches: Batches, nextBatch: nat, numTiers: nat, b: nat)
    requires IdsHold(counter, jobs, startedAt, retracted, drained, batches, nextBatch, numTiers) && b in batches
    ensures var dead := batches[b := batches[b].(live := false)];
            && IdsHold(counter, jobs, startedAt, retracted, drained, dead, nextBatch, numTiers)
            && (batches[b].job >= 0 ==>
                  IdsHold(counter, jobs, startedAt, retracted + {batches[b].job}, drained, dead, nextBatch, numTiers))
    ensures IdsHold(counter, jobs, startedAt, retracted, drained, batches - {b}, nextBatch, numTiers)
  {}

  // ---- deadlines of stores ----

  lemma Armed(deadline: map<Key, real>, owner: map<Key, (Req, nat)>, batches: Batches,
              b: nat, batch: Batch, counter: nat)
    requires ArmedHold(deadline, owner, batches, true) && b !in batches && batch.live && batch.job == counter
    requires forall c :: c in batches ==> batches[c].job < counter
    requires forall c, k :: c in batches && batches[c].live && k in batches[c].keys ==> k !in batch.keys
    ensures ArmedHold(Put(deadline, batch.keys, batch.deadline), Put(owner, batch.keys, (batch.req, counter)),
                      batches[b := batch], true)
  {
    hide OwnJobs, Put, ArmedAlike;
    var after := batches[b := batch];
    var deadline', owner' := Put(deadline, batch.keys, batch.deadline), Put(owner, batch.keys, (batch.req, counter));
    OwnJobsGrow(batches, b, batch, counter);
    ArmedAlikeAll(deadline, owner, batches, b, batch, counter);
    forall k | k in owner' ensures exists c :: OwnedBy(k, owner', after, c) {
      if k in batch.keys {
        assert OwnedBy(k, owner', after, b);
      } else {
        var c :| OwnedBy(k, owner, batches, c);
        assert OwnedBy(k, owner', after, c);
      }
    }
  }

  lemma ArmedAlikeAll(deadline: map<Key, real>, owner: map<Key, (Req, nat)>, batches: Batches,
                      b: nat, batch: Batch, counter: nat)
    requires forall c :: c in batches && batches[c].live ==> ArmedAlike(deadline, owner, batches[c])
    requires b !in batches && batch.live && batch.job == counter
    requires forall c, k :: c in batches && batches[c].live && k in batches[c].keys ==> k !in batch.keys
    ensures var after := batches[b := batch];
            forall c :: c in after && after[c].live ==>
              ArmedAlike(Put(deadline, batch.keys, batch.deadline), Put(owner, batch.keys, (batch.req, counter)),
                  after[c])
  {
    forall c | c in batches && batches[c].live
      ensures ArmedAlike(Put(deadline, batch.keys, batch.deadline), Put(owner, batch.keys, (batch.req, counter)),
          batches[c])
    {
      assert ArmedAlike(deadline, owner, batches[c]);
    }
  }

  lemma OwnJobsGrow(batches: Batches, b: nat, batch: Batch, counter: nat)
    requires OwnJobs(batches, true) && b !in batches && batch.job == counter
    requires forall c :: c in batches ==> batches[c].job < counter
    ensures OwnJobs(batches[b := batch], true)
  {}

  /** Disarming all keys of one store leaves the others armed. */
  lemma Disarmed(deadline: map<Key, real>, owner: map<Key, (Req, nat)>, batches: Batches, timed: bool, b: nat)
    requires ArmedHold(deadline, owner, batches, timed) && b in batches && batches[b].live
    ensures var keys := Elements(batches[b].keys);
            ArmedHold(deadline - keys, owner - keys, batches[b := batches[b].(live := false)], timed)
  {
    var keys := Elements(batches[b].keys);
    var after := batches[b := batches[b].(live := false)];
    var deadline', owner' := deadline - keys, owner - keys;
    assert OwnJobs(after, timed);
    forall k | k in owner' ensures exists c :: OwnedBy(k, owner', after, c) {
      var c :| OwnedBy(k, owner, batches, c);
      assert OwnedBy(k, owner', after, c);
    }
    forall c | c in after && after[c].live && timed ensures ArmedAlike(deadline', owner', after[c]) {
      LiveStoresApart(deadline, owner, batches, b, c);
    }
  }

  lemma LiveStoresApart(deadline: map<Key, real>, owner: map<Key, (Req, nat)>, batches: Batches, b: nat, c: nat)
    requires ArmedHold(deadline, owner, batches, true) && b in batches && c in batches && b != c
    requires batches[b].live && batches[c].live
    ensures forall k :: k in batches[b].keys ==> k !in batches[c].keys
    ensures ArmedAlike(deadline - Elements(batches[b].keys), owner - Elements(batches[b].keys), batches[c])
  {
    assert ArmedAlike(deadline, owner, batches[b]) && ArmedAlike(deadline, owner, batches[c]);
  }

  lemma DeadUnarmed(deadline: map<Key, real>, owner: map<Key, (Req, nat)>, batches: Batches, timed: bool, b: nat)
    requires ArmedHold(deadline, owner, batches, timed) && b in batches && !batches[b].live
    ensures ArmedHold(deadline, owner, batches - {b}, timed)
  {
    forall k | k in owner ensures exists c :: OwnedBy(k, owner, batches - {b}, c) {
      var c :| OwnedBy(k, owner, batches, c);
      assert OwnedBy(k, owner, batches - {b}, c);
    }
  }

  function Late(deadline: map<Key, real>, now: real): set<Key> {
    set k | k in deadline && now > deadline[k]
  }

  /** The overdue keys under the same id as `key`. */
  function OverdueWith(deadline: map<Key, real>, owner: map<Key, (Req, nat)>, now: real, key: Key): set<Key>
    requires key in owner
  {
    set k | k in deadline && now > deadline[k] && k in owner && owner[k].1 == owner[key].1
  }

  function JobsOwning(owner: map<Key, (Req, nat)>, keys: set<Key>): set<nat> {
    set k | k in keys && k in owner :: owner[k].1
  }

  lemma JobsOwningMore(owner: map<Key, (Req, nat)>, keys: set<Key>, more: set<Key>, job: nat, key: Key)
    requires key in more && more <= owner.Keys && forall k :: k in more ==> owner[k].1 == job
    ensures JobsOwning(owner, keys + more) == JobsOwning(owner, keys) + {job}
  {
    assert owner[key].1 == job;
  }

  /** The late stores are being taken back: `gone` are the keys so far. */
  ghost predicate TakenBackSoFar(table0: Table, deadline0: map<Key, real>, owner0: map<Key, (Req, nat)>,
                                 retracted0: set<nat>, table: Table, deadline: map<Key, real>,
                                 owner: map<Key, (Req, nat)>, retracted: set<nat>, gone: set<Key>, now: real) {
    && table == table0 - gone
    && deadline0.Keys == owner0.Keys && gone <= Late(deadline0, now)
    && deadline == deadline0 - gone && owner == owner0 - gone
    && retracted == retracted0 + JobsOwning(owner0, gone)
  }

  lemma NoneTakenBack(table: Table, deadline: map<Key, real>, owner: map<Key, (Req, nat)>, retracted: set<nat>, now: real)
    ensures deadline.Keys == owner.Keys ==>
              TakenBackSoFar(table, deadline, owner, retracted, table, deadline, owner, retracted, {}, now)
    ensures table - {} == table && deadline - {} == deadline && owner - {} == owner && retracted + JobsOwning(owner,
        {}) == retracted
  {}

  lemma OneTakenBack(table0: Table, deadline0: map<Key, real>, owner0: map<Key, (Req, nat)>, retracted0: set<nat>,
                     table: Table, deadline: map<Key, real>, owner: map<Key, (Req, nat)>, retracted: set<nat>,
                     gone: set<Key>, now: real, key: Key)
    requires TakenBackSoFar(table0, deadline0, owner0, retracted0, table, deadline, owner, retracted, gone, now)
    requires key in Late(deadline, now)
    ensures key in owner && key in deadline && now > deadline[key]
    ensures var group := OverdueWith(deadline, owner, now, key);
            && TakenBackSoFar(table0, deadline0, owner0, retracted0, table - group, deadline - group, owner - group,
                              retracted + {owner[key].1}, gone + group, now)
            && Late(deadline - group, now) < Late(deadline, now)
  {
    var group := OverdueWith(deadline, owner, now, key);
    assert key in owner0 && owner[key] == owner0[key];
    JobsOwningMore(owner0, gone, group, owner[key].1, key);
    assert key in group && key !in Late(deadline - group, now);
    assert deadline - group == deadline0 - (gone + group);
    assert owner - group == owner0 - (gone + group);
  }

  lemma AllTakenBack(table0: Table, deadline0: map<Key, real>, owner0: map<Key, (Req, nat)>, retracted0: set<nat>,
                     table: Table, deadline: map<Key, real>, owner: map<Key, (Req, nat)>, retracted: set<nat>,
                     gone: set<Key>, now: real)
    requires TakenBackSoFar(table0, deadline0, owner0, retracted0, table, deadline, owner, retracted, gone, now)
    requires Late(deadline, now) == {}
    ensures var late := Late(deadline0, now);
            && table == table0 - late && deadline == deadline0 - late && owner == owner0 - late
            && retracted == retracted0 + JobsOwning(owner0, late)
  {
    forall k | k in Late(deadline0, now) ensures k in gone {
      assert k !in gone ==> k in Late(deadline, now);
    }
  }

  lemma ArmedKeys(deadline: map<Key, real>, owner: map<Key, (Req, nat)>, batches: Batches, timed: bool)
    requires ArmedHold(deadline, owner, batches, timed)
    ensures deadline.Keys == owner.Keys
  {}

  /** The overdue keys under one id are all the keys of one live store. */
  lemma OverdueIsOneStore(deadline: map<Key, real>, owner: map<Key, (Req, nat)>, batches: Batches, timed: bool,
                          now: real, key: Key) returns (b: nat)
    requires ArmedHold(deadline, owner, batches, timed) && key in deadline && now > deadline[key] && timed
    ensures key in owner && b in batches && batches[b].live && batches[b].job == owner[key].1
    ensures Elements(batches[b].keys) == OverdueWith(deadline, owner, now, key)
  {
    b :| OwnedBy(key, owner, batches, b);
    forall k ensures k in batches[b].keys <==> k in OverdueWith(deadline, owner, now, key) {
      if k in deadline && owner[k].1 == owner[key].1 {
        var c :| OwnedBy(k, owner, batches, c);
        assert c == b;
      }
    }
  }

  // ---- combinations the manager needs ----

  lemma NothingHolds(counter: nat, numTiers: nat, timed: bool)
    ensures ClaimsHold(map[], multiset{}, map[], map[], map[])
    ensures IdsHold(counter, map[], map[], {}, map[], map[], 0, numTiers)
    ensures ArmedHold(map[], map[], map[], timed) && TiersExist(map[], map[], numTiers)
    ensures RequestsHold(map[], map[], {}, {}, [], {})
  {
    assert JobKeys(map[], true) == map[] && JobKeys(map[], false) == map[];
    assert LiveKeys(map[]) == map[] && WaitingKeys(map[]) == map[];
  }

  /** The end of a promotion, as the manager carries it out. */
  lemma PromotionDone(table: Table, loads: multiset<Key>, jobs: Jobs, waiting: Waiting, batches: Batches, id: nat,
                      ok: seq<Key>)
    requires ClaimsHold(table, loads, jobs, waiting, batches) && id in jobs && jobs[id].isPromotion
    requires Elements(ok) <= Elements(jobs[id].keys)
    ensures var failed := Drop(jobs[id].keys, Elements(ok));
            && ClaimsHold(Finished(Finished(table, ok, true), failed, false), loads, jobs - {id}, waiting, batches)
            && Finished(table, ok, true) == Finished(table, Keep(jobs[id].keys, Elements(ok)), true)
  {
    PromotionEnds(table, loads, jobs, waiting, batches, id, Elements(ok));
    assert Elements(Keep(jobs[id].keys, Elements(ok))) == Elements(ok);
    SameFinish(table, Keep(jobs[id].keys, Elements(ok)), ok);
  }

  /** ... told by what its report says. */
  lemma PromotionArrives(table: Table, loads: multiset<Key>, jobs: Jobs, waiting: Waiting, batches: Batches, id: nat,
                         result: JobResult, ok: seq<Key>)
    requires ClaimsHold(table, loads, jobs, waiting, batches) && id in jobs && jobs[id].isPromotion
    requires ArrivedKeys(jobs[id], result) == Elements(ok) <= Elements(jobs[id].keys)
    ensures ClaimsHold(Arrival(table, jobs[id], result), loads, jobs - {id}, waiting, batches)
    ensures Finished(Finished(table, ok, true), Drop(jobs[id].keys, Elements(ok)), false)
            == Arrival(table, jobs[id], result)
  {
    hide ClaimsHold, ArrivedKeys, Finished, Keep, Drop, Elements;
    PromotionDone(table, loads, jobs, waiting, batches, id, ok);
  }

  /** A promotion is given up: none of its keys arrived. */
  lemma PromotionGivenUp(table: Table, loads: multiset<Key>, jobs: Jobs, waiting: Waiting, batches: Batches, id: nat)
    requires ClaimsHold(table, loads, jobs, waiting, batches) && id in jobs && jobs[id].isPromotion
    ensures ClaimsHold(Finished(table, jobs[id].keys, false), loads, jobs - {id}, waiting, batches)
  {
    PromotionDone(table, loads, jobs, waiting, batches, id, []);
    DropNothing(jobs[id].keys, Elements([]));
    FinishNothing(table);
  }

  lemma PromotionWrites(table: Table, loads: multiset<Key>, jobs: Jobs, waiting: Waiting, batches: Batches, id: nat)
    requires ClaimsHold(table, loads, jobs, waiting, batches) && id in jobs && jobs[id].isPromotion
    ensures forall k :: k in jobs[id].keys ==> k in table && table[k].refCnt == -1
    ensures Finished(table, jobs[id].keys, false) == table - Elements(jobs[id].keys)
  {
    forall k | k in jobs[id].keys ensures k in table && table[k].refCnt == -1 {
      TallyHas(JobKeys(jobs, true), id, k);
      assert Writes(batches, waiting, jobs)[k] > 0;
    }
  }

  lemma CascadeDone(table: Table, loads: multiset<Key>, jobs: Jobs, waiting: Waiting, batches: Batches, id: nat)
    requires ClaimsHold(table, loads, jobs, waiting, batches) && id in jobs && !jobs[id].isPromotion
    ensures Distinct(jobs[id].keys) && forall k :: k in jobs[id].keys ==> k in table && table[k].refCnt > 0
    ensures ClaimsHold(Unpinned(table, jobs[id].keys), loads, jobs - {id}, waiting, batches)
  {
    CascadeEnds(table, loads, jobs, waiting, batches, id);
  }

  lemma SameFinish(table: Table, a: seq<Key>, b: seq<Key>)
    requires Elements(a) == Elements(b)
    ensures Finished(table, a, true) == Finished(table, b, true)
    ensures Finished(table, a, false) == Finished(table, b, false)
  {
    assert forall k :: k in a <==> k in Elements(a);
    assert forall k :: k in b <==> k in Elements(b);
  }

  lemma FinishNothing(table: Table)
    ensures Finished(table, [], true) == table && Finished(table, [], false) == table
  {}

  /** The keys of live stores are in the tier, so a new store names none of them. */
  lemma LiveStoresHeld(table: Table, loads: multiset<Key>, jobs: Jobs, waiting: Waiting, batches: Batches, b: nat, k: Key)
    requires ClaimsHold(table, loads, jobs, waiting, batches) && b in batches && batches[b].live && k in batches[b].keys
    ensures k in table
  {
    TallyHas(LiveKeys(batches), b, k);
    assert Writes(batches, waiting, jobs)[k] > 0;
  }

  lemma TakenBack(table: Table, loads: multiset<Key>, jobs: Jobs, waiting: Waiting, batches: Batches, b: nat,
                  keys: seq<Key>, success: bool)
    requires ClaimsHold(table, loads, jobs, waiting, batches) && b in batches && batches[b].live
    requires Elements(keys) == Elements(batches[b].keys)
    ensures forall k :: k in keys ==> k in table && table[k].refCnt == -1
    ensures ClaimsHold(Finished(table, keys, success), loads, jobs, waiting, batches[b := batches[b].(live := false)])
    ensures Finished(table, keys, false) == table - Elements(keys)
  {
    StoreEnds(table, loads, jobs, waiting, batches, b, success, batches[b := batches[b].(live := false)]);
    SameFinish(table, keys, batches[b].keys);
    assert forall k :: k in keys ==> k in Elements(keys);
  }

  function Without<V>(m: map<Key, V>, keys: seq<Key>): (r: map<Key, V>)
    ensures r == m - Elements(keys)
  {
    m - set k | k in keys
  }

  lemma OneMore(reports: seq<Report>, i: nat)
    requires i < |reports|
    ensures JobsOf(reports[..i + 1]) == JobsOf(reports[..i]) + {reports[i].result.job}
  {
    assert forall j :: 0 <= j < i ==> reports[..i + 1][j] == reports[..i][j];
    assert reports[..i + 1][i] == reports[i];
    forall id | id in JobsOf(reports[..i]) + {reports[i].result.job} ensures id in JobsOf(reports[..i + 1]) {
      if id in JobsOf(reports[..i]) {
        var j :| 0 <= j < i && reports[..i][j].result.job == id;
        assert reports[..i + 1][j].result.job == id;
      }
    }
  }

  lemma OneKey(key: Key, table: Table)
    requires key !in table
    ensures Distinct([key]) && Drop([key], table.Keys) == [key]
    ensures Admitted([key], None, 0, false) == [key]
  {
    DropNothing([key], table.Keys);
  }

  lemma TiersWait(waiting: Waiting, states: map<Req, ReqState>, numTiers: nat, tier: nat, req: Req, more: Pending)
    requires TiersExist(waiting, states, numTiers) && tier < numTiers
    ensures TiersExist(waiting[(tier, req) := more], states, numTiers)
  {}

  // ---- lookup ----

  /** A promotion of `key` failed not long ago. */
  predicate Silenced(failures: map<Key, real>, key: Key, now: real) {
    key in failures && failures[key] > now
  }

  lemma CountsAtLeast(primary: CpuOffloadingManager)
    requires primary.Valid()
    ensures forall k :: k in primary.Held() ==> primary.Held()[k].refCnt >= -1
  {
    PoolOf(primary.policy.Held(), primary.freeList, primary.numAllocated, primary.numEvictable, primary.numWritePending);
  }

  // ---- submissions ----

  function PromotionOf(p: (nat, Req), entry: Pending): Job {
    Job(entry.keys, entry.slots, true, p.1, p.0)
  }

  lemma WaitingTier(waiting: Waiting, states: map<Req, ReqState>, numTiers: nat, p: (nat, Req))
    requires TiersExist(waiting, states, numTiers) && p in waiting
    ensures p.0 < numTiers && TiersExist(waiting - {p}, states, numTiers)
  {}

  lemma LevelsExist(waiting: Waiting, states: map<Req, ReqState>, numTiers: nat, req: Req)
    requires TiersExist(waiting, states, numTiers) && req in states
    ensures forall t :: t in states[req].requestLevel ==> t < numTiers
  {}

  /** What a poll leaves of the blocks: reports first, then promotions that
      never end, then overdue stores. */
  function Polled(table: Table, jobs: Jobs, startedAt: map<nat, real>, late: set<Key>, reports: seq<Report>,
                  ttl: real, now: real): Table {
    var open, times := jobs - JobsOf(reports), startedAt - JobsOf(reports);
    ReportsEffect(table, jobs, reports) - KeysOf(open, Wedged(open, times, ttl, now)) - late
  }

  /** ... of the jobs */
  function PolledJobs(jobs: Jobs, startedAt: map<nat, real>, reports: seq<Report>, ttl: real, now: real): Jobs {
    var open, times := jobs - JobsOf(reports), startedAt - JobsOf(reports);
    open - Wedged(open, times, ttl, now)
  }

  /** ... and of the suppressed keys. */
  function PolledFailures(failures: map<Key, real>, jobs: Jobs, startedAt: map<nat, real>, reports: seq<Report>,
                          ttl: real, failTtl: real, now: real): map<Key, real> {
    var open, times := jobs - JobsOf(reports), startedAt - JobsOf(reports);
    AllSuppressed(FailuresEffect(failures, jobs, reports, now, failTtl), KeysOf(open, Wedged(open, times, ttl, now)),
                  now, failTtl)
  }

  function ReadableKeys(table: Table): set<Key> {
    set k | k in table && table[k].refCnt >= 0
  }

  /** The table once `keys` have `n` readers more. */
  function PinnedBy(table: Table, keys: seq<Key>, n: nat): (r: Table)
    requires forall k :: k in keys ==> k in table
    ensures r.Keys == table.Keys
    ensures forall k :: k in r ==> r[k] == if k in keys then table[k].(refCnt := table[k].refCnt + n) else table[k]
  {
    if n == 0 then table else Pinned(PinnedBy(table, keys, n - 1), keys)
  }

  /** One submission to each of the first `n` tiers. */
  function StoreEvents(n: nat, req: Req): (r: seq<Event>)
    ensures |r| == n && forall t: nat :: t < n ==> r[t] == SubmitStore(t, req)
  {
    if n == 0 then [] else StoreEvents(n - 1, req) + [SubmitStore(n - 1, req)]
  }

  lemma PinnedSlots(table: Table, keys: seq<Key>, slots: seq<nat>)
    requires forall k :: k in keys ==> k in table
    requires |slots| == |keys| && forall i :: 0 <= i < |keys| ==> slots[i] == Pinned(table, keys)[keys[i]].id
    ensures Owns(table, keys, slots) && Owns(Pinned(table, keys), keys, slots)
  {}

  ghost predicate HasJob(jobs: Jobs, job: Job) {
    exists id :: id in jobs && jobs[id] == job
  }

  /** Each promotion that left the queue has become a job of its own. */
  ghost predicate SubmittedSoFar(waiting0: Waiting, waiting: Waiting, jobs0: Jobs, jobs: Jobs) {
    && waiting.Keys <= waiting0.Keys && (forall p :: p in waiting ==> waiting[p] == waiting0[p])
    && jobs.Keys >= jobs0.Keys && (forall id :: id in jobs0 ==> jobs[id] == jobs0[id])
    && |jobs| + |waiting| == |jobs0| + |waiting0|
    && (forall p :: p in waiting0 && p !in waiting ==> HasJob(jobs, PromotionOf(p, waiting0[p])))
  }

  lemma NoneSubmitted(waiting: Waiting, jobs: Jobs)
    ensures SubmittedSoFar(waiting, waiting, jobs, jobs)
  {}

  lemma OneSubmitted(waiting0: Waiting, waiting: Waiting, jobs0: Jobs, jobs: Jobs, p: (nat, Req), id: nat)
    requires SubmittedSoFar(waiting0, waiting, jobs0, jobs) && p in waiting
    ensures id !in jobs ==>
              SubmittedSoFar(waiting0, waiting - {p}, jobs0, jobs[id := PromotionOf(p, waiting[p])])
    ensures |waiting - {p}| < |waiting|
  {
    var jobs' := jobs[id := PromotionOf(p, waiting[p])];
    assert |waiting - {p}| == |waiting| - 1;
    if id !in jobs {
      assert |jobs'| == |jobs| + 1;
      forall q | q in waiting0 && q !in waiting - {p} ensures HasJob(jobs', PromotionOf(q, waiting0[q])) {
        if q == p {
          assert jobs'[id] == PromotionOf(q, waiting0[q]);
        } else {
          var i :| i in jobs && jobs[i] == PromotionOf(q, waiting0[q]);
          assert jobs'[i] == PromotionOf(q, waiting0[q]);
        }
      }
    }
  }

  lemma AllSubmitted(waiting: Waiting, jobs0: Jobs, jobs: Jobs)
    requires SubmittedSoFar(waiting, map[], jobs0, jobs)
    ensures jobs.Keys >= jobs0.Keys && |jobs| == |jobs0| + |waiting|
    ensures forall id :: id in jobs0 ==> jobs[id] == jobs0[id]
    ensures forall p :: p in waiting ==> HasJob(jobs, PromotionOf(p, waiting[p]))
  {}

  /** What was added to the trace is a store of `req` to each of `tiers`. */
  ghost predicate OnlyStoresAdded(before: seq<Event>, after: seq<Event>, req: Req, tiers: set<nat>) {
    && before <= after && |after| == |before| + |tiers|
    && forall e :: e in after[|before|..] <==> e.SubmitStore? && e.req == req && e.tier in tiers
  }

  lemma StoreAdded(before: seq<Event>, after: seq<Event>, req: Req, tiers: set<nat>, tier: nat)
    ensures OnlyStoresAdded(before, before, req, {})
    ensures OnlyStoresAdded(before, after, req, tiers) && tier !in tiers ==>
              OnlyStoresAdded(before, after + [SubmitStore(tier, req)], req, tiers + {tier})
  {
    if before <= after {
      assert (after + [SubmitStore(tier, req)])[|before|..] == after[|before|..] + [SubmitStore(tier, req)];
    }
  }

  /** Each of `tiers` has got one new job, which reads `keys` for it. */
  ghost predicate StoreJobsAdded(before: Jobs, after: Jobs, keys: seq<Key>, req: Req, tiers: set<nat>) {
    && JobsGrow(before, after, keys, req, tiers) && |after| == |before| + |tiers|
    && (forall t :: t in tiers ==> ServedTier(before, after, keys, req, t))
  }

  ghost predicate JobsGrow(before: Jobs, after: Jobs, keys: seq<Key>, req: Req, tiers: set<nat>) {
    && before.Keys <= after.Keys && (forall id :: id in before ==> after[id] == before[id])
    && (forall id :: id in after.Keys - before.Keys ==> IsStoreToOne(after[id], keys, req, tiers))
  }

  predicate IsStoreToOne(job: Job, keys: seq<Key>, req: Req, tiers: set<nat>) {
    !job.isPromotion && job.keys == keys && job.req == req && job.tier in tiers
  }

  ghost predicate ServedTier(before: Jobs, after: Jobs, keys: seq<Key>, req: Req, tier: nat) {
    exists id :: id in after.Keys - before.Keys && IsStoreToOne(after[id], keys, req, {tier})
  }

  lemma NoJobAdded(jobs: Jobs, keys: seq<Key>, req: Req)
    ensures StoreJobsAdded(jobs, jobs, keys, req, {})
  {}

  lemma StillServed(before: Jobs, jobs: Jobs, keys: seq<Key>, req: Req, tier: nat, id: nat, job: Job)
    requires id !in jobs && ServedTier(before, jobs, keys, req, tier)
    ensures ServedTier(before, jobs[id := job], keys, req, tier)
  {
    var i :| i in jobs.Keys - before.Keys && IsStoreToOne(jobs[i], keys, req, {tier});
    assert jobs[id := job][i] == jobs[i];
  }

  lemma StoreJobAdded(before: Jobs, jobs: Jobs, keys: seq<Key>, req: Req, tiers: set<nat>, id: nat, job: Job)
    requires StoreJobsAdded(before, jobs, keys, req, tiers) && id !in jobs
    requires job.tier !in tiers && IsStoreToOne(job, keys, req, {job.tier})
    ensures StoreJobsAdded(before, jobs[id := job], keys, req, tiers + {job.tier})
  {
    hide ServedTier, JobsGrow;
    var after := jobs[id := job];
    GrowOne(before, jobs, keys, req, tiers, id, job);
    forall t | t in tiers + {job.tier} ensures ServedTier(before, after, keys, req, t) {
      if t in tiers {
        StillServed(before, jobs, keys, req, t, id, job);
      } else {
        NewlyServed(before, jobs, keys, req, tiers, id, job);
      }
    }
  }

  lemma GrowOne(before: Jobs, jobs: Jobs, keys: seq<Key>, req: Req, tiers: set<nat>, id: nat, job: Job)
    requires JobsGrow(before, jobs, keys, req, tiers) && id !in jobs
    requires IsStoreToOne(job, keys, req, {job.tier})
    ensures JobsGrow(before, jobs[id := job], keys, req, tiers + {job.tier}) && |jobs[id := job]| == |jobs| + 1
  {}

  lemma NewlyServed(before: Jobs, jobs: Jobs, keys: seq<Key>, req: Req, tiers: set<nat>, id: nat, job: Job)
    requires JobsGrow(before, jobs, keys, req, tiers) && id !in jobs && IsStoreToOne(job, keys, req, {job.tier})
    ensures ServedTier(before, jobs[id := job], keys, req, job.tier)
  {
    assert jobs[id := job][id] == job;
  }

  /** One job of readable `keys` went to each of the first `n` tiers, in order. */
  ghost predicate SentToFirst(table0: Table, table: Table, keys: seq<Key>, trace0: seq<Event>, trace: seq<Event>,
                              jobs0: Jobs, jobs: Jobs, req: Req, n: nat) {
    && (forall k :: k in keys ==> k in table0 && table0[k].refCnt >= 0) && table == PinnedBy(table0, keys, n)
    && trace == trace0 + StoreEvents(n, req) && StoreJobsAdded(jobs0, jobs, keys, req, Below(n))
  }

  /** The blocks and jobs after a store of `keys` to the tier has ended. */
  ghost predicate CascadedStore(table0: Table, table: Table, keys: seq<Key>, jobs0: Jobs, jobs: Jobs, req: Req,
                                success: bool, n: nat) {
    var done := Finished(table0, keys, success);
    if success then
      && (forall k :: k in keys ==> k in done) && table == PinnedBy(done, keys, n)
      && StoreJobsAdded(jobs0, jobs, keys, req, Below(n))
    else table == done && jobs == jobs0
  }

  lemma SentToNone(table: Table, keys: seq<Key>, trace: seq<Event>, jobs: Jobs, req: Req)
    requires forall k :: k in keys ==> k in table && table[k].refCnt >= 0
    ensures SentToFirst(table, table, keys, trace, trace, jobs, jobs, req, 0)
  {
    NoJobAdded(jobs, keys, req);
  }

  lemma SentToNext(table0: Table, table: Table, keys: seq<Key>, trace0: seq<Event>, trace: seq<Event>, jobs0: Jobs,
                   jobs: Jobs, req: Req, n: nat, id: nat)
    requires SentToFirst(table0, table, keys, trace0, trace, jobs0, jobs, req, n)
    ensures forall k :: k in keys ==> k in table && table[k].refCnt >= 0
    ensures forall job: Job :: id !in jobs && IsStoreToOne(job, keys, req, {n}) ==>
              SentToFirst(table0, Pinned(table, keys), keys, trace0, trace + [SubmitStore(n, req)], jobs0, jobs[id := job],
                          req, n + 1)
  {
    hide StoreJobsAdded;
    forall job: Job | id !in jobs && IsStoreToOne(job, keys, req, {n})
      ensures StoreJobsAdded(jobs0, jobs[id := job], keys, req, Below(n + 1))
    {
      StoreJobAdded(jobs0, jobs, keys, req, Below(n), id, job);
    }
  }

  /** One job of readable `keys` went to each of `tiers`. */
  ghost predicate SentTo(table0: Table, table: Table, keys: seq<Key>, trace0: seq<Event>, trace: seq<Event>, req: Req,
                         tiers: set<nat>) {
    && (forall k :: k in keys ==> k in table0 && table0[k].refCnt >= 0)
    && table == PinnedBy(table0, keys, |tiers|) && OnlyStoresAdded(trace0, trace, req, tiers)
  }

  lemma NothingSent(table: Table, keys: seq<Key>, trace: seq<Event>, req: Req, tiers: set<nat>)
    requires forall k :: k in keys ==> k in table && table[k].refCnt >= 0
    ensures SentTo(table, table, keys, trace, trace, req, tiers - tiers)
  {
    assert tiers - tiers == {};
    StoreAdded(trace, trace, req, {}, 0);
  }

  lemma MoreSent(table0: Table, table: Table, keys: seq<Key>, trace0: seq<Event>, trace: seq<Event>, req: Req,
                 tiers: set<nat>, todo: set<nat>, tier: nat)
    requires SentTo(table0, table, keys, trace0, trace, req, tiers - todo) && tier in todo && todo <= tiers
    ensures forall k :: k in keys ==> k in table && table[k].refCnt >= 0
    ensures SentTo(table0, Pinned(table, keys), keys, trace0, trace + [SubmitStore(tier, req)], req,
        tiers - (todo - {tier}))
  {
    hide OnlyStoresAdded;
    assert tiers - (todo - {tier}) == (tiers - todo) + {tier};
    StoreAdded(trace0, trace, req, tiers - todo, tier);
  }

  lemma AllSent(table0: Table, table: Table, keys: seq<Key>, trace0: seq<Event>, trace: seq<Event>, req: Req,
                tiers: set<nat>)
    requires SentTo(table0, table, keys, trace0, trace, req, tiers - {})
    ensures (forall k :: k in keys ==> k in table0) && table == PinnedBy(table0, keys, |tiers|)
    ensures OnlyStoresAdded(trace0, trace, req, tiers)
  {
    assert tiers - {} == tiers;
  }

  // ---- stores from the GPU ----

  /** What preparing a store changes: nothing when it is refused; otherwise the
      missing keys are reserved after evicting idle blocks, and blocks that can
      be read already go to the tiers that want whole requests. */
  ghost predicate Stored(table0: Table, jobs0: Jobs, trace0: seq<Event>, table: Table, jobs: Jobs, trace: seq<Event>,
                         keys: seq<Key>, req: Req, levels: set<nat>, r: Option<StoreOutput>) {
    && (r.None? ==> table == table0 && jobs == jobs0 && trace == trace0)
    && (r.Some? ==>
          var out := r.value;
          var ready := Keep(keys, ReadableKeys(table0));
          var tiers := if ready == [] then {} else levels;
          && StoreOutputFits(table0, keys, out)
          && (var kept := Reserved(table0 - Elements(out.evicted), out.keysToStore, out.slots);
              table == PinnedBy(kept, ready, |tiers|))
          && OnlyStoresAdded(trace0, trace, req, tiers) && StoreJobsAdded(jobs0, jobs, ready, req, tiers))
  }

  ghost predicate StoreOutputFits(table: Table, keys: seq<Key>, out: StoreOutput) {
    && out.keysToStore == Drop(keys, table.Keys) && |out.slots| == |out.keysToStore|
    && forall k :: k in out.evicted ==> k in IdleKeys(table) && k !in keys
  }

  /** More blocks than a policy with this order can evict from `table`: all idle
      ones, but under ARC none of T1 below the target. */
  ghost predicate OutOfReach(table: Table, idle: set<Key>, order: PolicyState, n: int) {
    || n > |idle|
    || (order.ArcState? &&
        var recent, frequent := Elements(order.lists.t1) * table.Keys, idle * Elements(order.lists.t2);
        n > Max(0, |recent| - order.lists.target.Floor + 1) + |frequent|)
  }

  /** Exactly when a store is refused, and how many blocks it evicts otherwise.
      `order` is the policy's order, perhaps with blocks that are gone since. */
  ghost predicate RoomDecides(table: Table, keys: seq<Key>, primary: CpuOffloadingManager, order: PolicyState,
                              r: Option<StoreOutput>) {
    var short := |Drop(keys, table.Keys)| - (primary.numBlocks - |table|);
    && (r.None? <==> short > 0 && (0 < primary.callCap < short
                                   || OutOfReach(table, IdleKeys(table) - Elements(keys), order, short)))
    && (r.Some? ==> |r.value.evicted| == if short > 0 then short else 0)
  }

  /** What the tier decides from, in terms of its table and its policy's order. */
  lemma RoomIs(primary: CpuOffloadingManager, keys: seq<Key>, short: int)
    requires primary.Valid()
    ensures primary.Free() == primary.numBlocks - |primary.Held()|
    ensures var idle := IdleKeys(primary.Held()) - Elements(keys);
            short > 0 ==> (primary.policy.Refuses(short, Elements(keys))
                           <==> OutOfReach(primary.Held(), idle, primary.policy.State(), short))
  {
    FreeSize(primary.Held(), primary.freeList, primary.numAllocated);
    if short > 0 {
      match primary.policy {
        case LruPolicy(lru) => LruRefusesWhenFew(lru.evictable, lru.blocks, Elements(keys));
        case ArcPolicy(arc) => ArcReaches(arc, short, Elements(keys));
      }
    }
  }

  lemma ArcReaches(arc: ArcCachePolicy, n: nat, protect: set<Key>)
    requires arc.Valid()
    ensures arc.Fails(n, protect)
            <==> OutOfReach(arc.blocks, IdleKeys(arc.blocks) - protect, ArcState(arc.Value()), n)
  {
    hide KeysAt, Distinct, Elements, ArcCachePolicy.Fails;
    FailsThoughEnoughIdle(arc, n, protect);
    DistinctLength(arc.t1);
    assert Elements(arc.t1) * arc.blocks.Keys == Elements(arc.t1);
  }

  /** Blocks that are gone since do not matter. */
  lemma ReachKept(table: Table, idle: set<Key>, before: PolicyState, order: PolicyState, n: int)
    requires OnlyForgets(before, order) && ListsFit(order, table) && ListsApart(before)
    requires idle <= table.Keys && (before.ArcState? <==> order.ArcState?)
    ensures OutOfReach(table, idle, before, n) <==> OutOfReach(table, idle, order, n)
  {
    hide Elements;
    if before.ArcState? {
      PartsKept(Elements(before.lists.t1), Elements(before.lists.t2), Elements(order.lists.t1), Elements(order.lists.t2),
                table.Keys, idle);
    }
  }

  lemma PartsKept(a: set<Key>, b: set<Key>, a': set<Key>, b': set<Key>, keys: set<Key>, idle: set<Key>)
    requires a' <= a && b' <= b && a !! b && a' + b' == keys && idle <= keys
    ensures a * keys == a' * keys && idle * b == idle * b'
  {
    assert a * keys == a' && b * keys == b';
    assert idle * b == idle * (b * keys);
  }

  /** ARC's two lists hold the blocks of the table, each block once. */
  ghost predicate ListsFit(order: PolicyState, table: Table) {
    order.ArcState? ==> Elements(order.lists.t1) + Elements(order.lists.t2) == table.Keys
  }

  ghost predicate ListsApart(order: PolicyState) {
    order.ArcState? ==> Elements(order.lists.t1) !! Elements(order.lists.t2)
  }

  lemma ListsAre(primary: CpuOffloadingManager)
    requires primary.Valid()
    ensures ListsFit(primary.policy.State(), primary.Held()) && ListsApart(primary.policy.State())
    ensures primary.policy.State().ArcState? <==> primary.policy.ArcPolicy?
  {}

  lemma RoomDecided(table: Table, keys: seq<Key>, primary: CpuOffloadingManager, order: PolicyState, short: int,
                    refuses: bool, r: Option<StoreOutput>)
    requires short == |Drop(keys, table.Keys)| - (primary.numBlocks - |table|)
    requires short > 0 ==> (refuses <==> OutOfReach(table, IdleKeys(table) - Elements(keys), order, short))
    requires r.None? <==> short > 0 && (0 < primary.callCap < short || short > |IdleKeys(table)| || refuses)
    requires r.Some? ==> |r.value.evicted| == if short > 0 then short else 0
    ensures RoomDecides(table, keys, primary, order, r)
  {
    SubsetSize(IdleKeys(table) - Elements(keys), IdleKeys(table));
  }

  lemma RoomSince(table: Table, keys: seq<Key>, primary: CpuOffloadingManager, before: PolicyState, order: PolicyState,
                  r: Option<StoreOutput>)
    requires RoomDecides(table, keys, primary, order, r)
    requires OnlyForgets(before, order) && ListsFit(order, table) && ListsApart(before)
    requires before.ArcState? <==> order.ArcState?
    ensures RoomDecides(table, keys, primary, before, r)
  {
    hide OutOfReach, OnlyForgets, ListsFit, ListsApart, Elements;
    var short := |Drop(keys, table.Keys)| - (primary.numBlocks - |table|);
    ReachKept(table, IdleKeys(table) - Elements(keys), before, order, short);
  }

  /** The blocks that were readable before the reservation are those that are
      readable after it. */
  lemma SameReady(table: Table, keys: seq<Key>, out: StoreOutput)
    requires StoreOutputFits(table, keys, out)
    ensures var kept := Reserved(table - Elements(out.evicted), out.keysToStore, out.slots);
            Keep(Drop(keys, Elements(out.keysToStore)), ReadableKeys(kept)) == Keep(keys, ReadableKeys(table))
  {
    hide IdleKeys;
    var kept := Reserved(table - Elements(out.evicted), out.keysToStore, out.slots);
    var rest := Elements(keys) - Elements(out.keysToStore);
    ReservedEach(table - Elements(out.evicted), out.keysToStore, out.slots);
    KeepTwice(keys, rest, ReadableKeys(kept));
    KeepSame(keys, rest * ReadableKeys(kept), ReadableKeys(table));
  }

  function OneMorePending(states: map<Req, ReqState>, req: Req): map<Req, ReqState>
    requires req in states
  {
    states[req := states[req].(pendingStores := states[req].pendingStores + 1)]
  }

  /** A store that has just been prepared. */
  function StoreBatch(req: Req, keys: seq<Key>, counter: nat, now: real, ttl: real): Batch {
    Batch(req, keys, true, if ttl > 0.0 then counter else -1, now + ttl)
  }

  lemma AllAdmitted(keys: seq<Key>)
    ensures forall threshold: nat :: Admitted(keys, None, threshold, false) == keys
  {}

  lemma TierFits(primary: CpuOffloadingManager)
    requires primary.Valid()
    ensures |primary.Held()| <= primary.numBlocks
  {
    FreeSize(primary.Held(), primary.freeList, primary.numAllocated);
  }

  lemma SlotsLeft(primary: CpuOffloadingManager)
    requires primary.Valid()
    ensures primary.Free() >= 0
  {}

  lemma NothingReserved(table: Table, out: StoreOutput)
    requires out.keysToStore == [] && |out.slots| == 0 && |out.evicted| == 0
    ensures Reserved(table - Elements(out.evicted), out.keysToStore, out.slots) == table
  {
    assert table - Elements(out.evicted) == table;
  }

  lemma StoreBegins(table: Table, loads: multiset<Key>, jobs: Jobs, waiting: Waiting, batches: Batches,
                    out: StoreOutput, keys: seq<Key>, b: nat, batch: Batch)
    requires ClaimsHold(table, loads, jobs, waiting, batches) && batch.live && batch.keys == out.keysToStore
    requires out.keysToStore == Drop(keys, table.Keys) && Distinct(out.keysToStore) && |out.slots| == |out.keysToStore|
    requires forall k :: k in out.evicted ==> k in IdleKeys(table)
    ensures forall k :: k in out.keysToStore ==> k !in table
    ensures forall c, k :: c in batches && batches[c].live && k in batches[c].keys ==> k in table
    ensures b !in batches ==>
              ClaimsHold(Reserved(table - Elements(out.evicted), out.keysToStore, out.slots), loads, jobs, waiting,
                  batches[b := batch])
  {
    forall c, k | c in batches && batches[c].live && k in batches[c].keys ensures k in table {
      LiveStoresHeld(table, loads, jobs, waiting, batches, c, k);
    }
    if b !in batches {
      StoreStarts(table, loads, jobs, waiting, batches, out.evicted, out.slots, b, batch);
    }
  }

  lemma PendingTiers(waiting: Waiting, states: map<Req, ReqState>, numTiers: nat, req: Req)
    requires TiersExist(waiting, states, numTiers) && req in states
    ensures forall n: int, done: bool ::
              TiersExist(waiting, states[req := ReqState(n, done, states[req].requestLevel)], numTiers)
    ensures TiersExist(waiting, states - {req}, numTiers)
  {}

  lemma BatchJobs(counter: nat, jobs: Jobs, startedAt: map<nat, real>, retracted: set<nat>,
                  drained: map<nat, real>, batches: Batches, nextBatch: nat, numTiers: nat)
    requires IdsHold(counter, jobs, startedAt, retracted, drained, batches, nextBatch, numTiers)
    ensures forall b :: b in batches ==> batches[b].job < counter
  {}

  lemma ArmedOrNot(deadline: map<Key, real>, owner: map<Key, (Req, nat)>, batches: Batches, timed: bool,
                   b: nat, batch: Batch, counter: nat)
    requires ArmedHold(deadline, owner, batches, timed) && b !in batches && batch.live
    requires batch.job == if timed then counter else -1
    requires forall c :: c in batches ==> batches[c].job < counter
    requires forall c, k :: c in batches && batches[c].live && k in batches[c].keys ==> k !in batch.keys
    ensures if timed then
              ArmedHold(Put(deadline, batch.keys, batch.deadline), Put(owner, batch.keys, (batch.req, counter)),
                  batches[b := batch], timed)
            else ArmedHold(deadline, owner, batches[b := batch], timed)
  {
    if timed {
      Armed(deadline, owner, batches, b, batch, counter);
    } else {
      assert forall k, c :: !OwnedBy(k, owner, batches, c);
      assert owner.Keys == {};
    }
  }

  lemma BatchReq(states: map<Req, ReqState>, batches: Batches, known: set<Req>, over: set<Req>, trace: seq<Event>, b: nat)
    requires RequestsHold(states, batches, known, over, trace, {}) && b in batches
    ensures batches[b].req in states
  {}

  /** Keys that nobody writes are not armed. */
  lemma UnwrittenUnarmed(table: Table, loads: multiset<Key>, jobs: Jobs, waiting: Waiting, batches: Batches,
                         deadline: map<Key, real>, owner: map<Key, (Req, nat)>, timed: bool, keys: seq<Key>)
    requires ClaimsHold(table, loads, jobs, waiting, batches) && ArmedHold(deadline, owner, batches, timed)
    requires forall k :: k in keys ==> k !in WritingBlocks(table)
    ensures deadline - Elements(keys) == deadline && owner - Elements(keys) == owner
  {
    forall k | k in keys ensures k !in owner {
      if k in owner {
        var b :| OwnedBy(k, owner, batches, b);
        TakenBack(table, loads, jobs, waiting, batches, b, batches[b].keys, true);
      }
    }
  }

  /** A store that was taken back changes nothing when it completes after all. */
  lemma LateStoreEnds(table: Table, loads: multiset<Key>, jobs: Jobs, waiting: Waiting, batches: Batches, b: nat,
                      keys: seq<Key>, success: bool)
    requires ClaimsHold(table, loads, jobs, waiting, batches) && b in batches && !batches[b].live
    requires forall k :: k in keys ==> k !in WritingBlocks(table)
    ensures ClaimsHold(Finished(table, keys, success), loads, jobs, waiting, batches[b := batches[b].(live := false)])
    ensures Finished(table, keys, success) == table && batches[b := batches[b].(live := false)] == batches
  {
    assert batches[b].(live := false) == batches[b];
    assert batches[b := batches[b].(live := false)] == batches;
    LateStoreHarmlessIff(table, loads, jobs, waiting, batches, keys, success);
  }

  /** The end of the writes of a store, in time or late. */
  lemma WritesEnd(table: Table, loads: multiset<Key>, jobs: Jobs, waiting: Waiting, batches: Batches, b: nat,
                  keys: seq<Key>, success: bool, deadline: map<Key, real>, owner: map<Key, (Req, nat)>, timed: bool)
    requires ClaimsHold(table, loads, jobs, waiting, batches) && ArmedHold(deadline, owner, batches, timed)
    requires b in batches && Elements(keys) == Elements(batches[b].keys)
    requires batches[b].live || forall k :: k in keys ==> k !in WritingBlocks(table)
    ensures var after := batches[b := batches[b].(live := false)];
            && ClaimsHold(Finished(table, keys, success), loads, jobs, waiting, after)
            && ArmedHold(deadline - Elements(keys), owner - Elements(keys), after, timed)
    ensures batches[b].live ==>
              && (forall k :: k in keys ==> k in table && table[k].refCnt == -1)
              && Finished(table, keys, false) == table - Elements(keys)
    ensures !batches[b].live ==>
              && Finished(table, keys, success) == table && deadline - Elements(keys) == deadline
              && batches[b := batches[b].(live := false)] == batches
  {
    hide ClaimsHold, ArmedHold, Finished, WritingBlocks;
    if batches[b].live {
      TakenBack(table, loads, jobs, waiting, batches, b, keys, success);
      Disarmed(deadline, owner, batches, timed, b);
    } else {
      LateStoreEnds(table, loads, jobs, waiting, batches, b, keys, success);
      UnwrittenUnarmed(table, loads, jobs, waiting, batches, deadline, owner, timed, keys);
    }
  }

  /** What else refers to batches does not mind. */
  lemma LogAndIdsKept(counter: nat, jobs: Jobs, startedAt: map<nat, real>, retracted: set<nat>, drained: map<nat, real>,
                      batches: Batches, nextBatch: nat, numTiers: nat, b: nat, states: map<Req, ReqState>,
                      known: set<Req>, over: set<Req>, trace: seq<Event>)
    requires IdsHold(counter, jobs, startedAt, retracted, drained, batches, nextBatch, numTiers) && b in batches
    requires RequestsHold(states, batches, known, over, trace, {})
    ensures var after := batches[b := batches[b].(live := false)];
            && IdsHold(counter, jobs, startedAt, retracted, drained, after, nextBatch, numTiers)
            && RequestsHold(states, after, known, over, trace, {})
  {
    hide IdsHold, RequestsHold;
    StoreTakenBack(states, batches, known, over, trace, {}, b);
    IdsDeadBatch(counter, jobs, startedAt, retracted, drained, batches, nextBatch, numTiers, b);
  }

  /** The blocks of a store that may complete are readable afterwards. */
  lemma CompletedReady(table: Table, batch: Batch, keys: seq<Key>)
    requires MayComplete(table, batch, keys, true) && forall k :: k in table ==> table[k].refCnt >= -1
    requires batch.live ==> forall k :: k in keys ==> k in table && table[k].refCnt == -1
    ensures forall k :: k in keys ==> k in Finished(table, keys, true) && Finished(table, keys, true)[k].refCnt >= 0
  {}

  lemma NewTiers(waiting: Waiting, states: map<Req, ReqState>, numTiers: nat, req: Req, levels: set<nat>)
    requires TiersExist(waiting, states, numTiers) && forall t :: t in levels ==> t < numTiers
    ensures TiersExist(waiting, states[req := ReqState(0, false, levels)], numTiers)
  {}

  // ---- drain and reset ----

  function AfterDrain(drained: map<nat, real>, ids: set<nat>, now: real): map<nat, real> {
    var noted := if ids == {} then drained else drained + map id | id in ids :: now + RETENTION;
    map id | id in noted && !(noted[id] < now) :: noted[id]
  }

  lemma IdsDrained(counter: nat, jobs: Jobs, startedAt: map<nat, real>, retracted: set<nat>,
                   drained: map<nat, real>, batches: Batches, nextBatch: nat, numTiers: nat, now: real)
    requires IdsHold(counter, jobs, startedAt, retracted, drained, batches, nextBatch, numTiers)
    ensures IdsHold(counter, jobs, startedAt, {}, AfterDrain(drained, retracted, now), batches, nextBatch, numTiers)
  {}

  lemma SameFinished(states: map<Req, ReqState>)
    ensures FinishedRequests(NonePending(states)) == FinishedRequests(states)
    ensures forall r :: r in FinishedRequests(states) ==>
              r in NonePending(states) && NonePending(states)[r].isFinished && NonePending(states)[r].pendingStores == 0
  {
    assert forall r :: r in NonePending(states) <==> r in states;
  }

  lemma NothingUnderWay(counter: nat, jobs: Jobs, startedAt: map<nat, real>, retracted: set<nat>,
                        drained: map<nat, real>, batches: Batches, nextBatch: nat, numTiers: nat,
                        waiting: Waiting, states: map<Req, ReqState>, timed: bool)
    requires IdsHold(counter, jobs, startedAt, retracted, drained, batches, nextBatch, numTiers) && jobs == map[]
    requires TiersExist(waiting, states, numTiers)
    ensures ClaimsHold(map[], multiset{}, jobs, map[], map[])
    ensures IdsHold(counter, jobs, startedAt, retracted, drained, map[], nextBatch, numTiers)
    ensures ArmedHold(map[], map[], map[], timed) && TiersExist(map[], NonePending(states), numTiers)
  {
    NothingHolds(counter, numTiers, timed);
  }
}
