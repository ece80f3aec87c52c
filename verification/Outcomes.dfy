/** What a poll and a lookup come to for each key: whether it can be read, and
    whether its promotion may be tried again. */
module Outcomes {
  import opened Sequences
  import opened Blocks
  import opened SlotPool
  import opened CachePolicies
  import opened CpuManager
  import opened Claims
  import opened TieringState

  /** Both maps say the same of `k`. */
  predicate SameAt<K(==), V(==)>(m0: map<K, V>, m: map<K, V>, k: K) {
    (k in m <==> k in m0) && (k in m0 && k in m ==> m[k] == m0[k])
  }

  // ---- failed promotions ----

  /** A promotion that failed at `failed` is not tried again before `ttl` more
      seconds are over; for other keys, and without a `ttl`, nothing changes. */
  lemma SilencedUntil(failures: map<Key, real>, keys: seq<Key>, failed: real, ttl: real, k: Key, now: real)
    ensures Silenced(Suppressed(failures, keys, failed, ttl), k, now)
            <==> if k in keys && ttl > 0.0 then now < failed + ttl else k in failures && now < failures[k]
    ensures Silenced(AllSuppressed(failures, Elements(keys), failed, ttl), k, now)
            <==> Silenced(Suppressed(failures, keys, failed, ttl), k, now)
  {
    assert k in keys <==> k in Elements(keys);
  }

  /** One key of a promotion after the report of its tier. It can be read, from
      the slot it was read into, and be promoted again at once; or it is gone,
      and not promoted again before `ttl` more seconds are over. */
  ghost predicate KeyTold(k: Key, arrived: bool, table0: Table, failures0: map<Key, real>, table: Table,
                          failures: map<Key, real>, now: real, ttl: real) {
    if arrived then k in table0 && k in table && table[k] == Block(0, table0[k].id) && k !in failures
    else
      && k !in table
      && if ttl > 0.0 then k in failures && failures[k] == now + ttl else SameAt(failures0, failures, k)
  }

  /** A promotion that succeeded brings all its keys, any other those that its
      report names. */
  ghost predicate PromotionTold(job: Job, result: JobResult, table0: Table, failures0: map<Key, real>, table: Table,
                                failures: map<Key, real>, now: real, ttl: real) {
    forall k :: k in job.keys ==>
      KeyTold(k, result.success || k in result.successful, table0, failures0, table, failures, now, ttl)
  }

  /** The same for each promotion that is reported. */
  ghost predicate ReportsTold(jobs: Jobs, reports: seq<Report>, table0: Table, failures0: map<Key, real>, table: Table,
                              failures: map<Key, real>, now: real, ttl: real) {
    forall i :: 0 <= i < |reports| ==> ReportTold(jobs, reports[i], table0, failures0, table, failures, now, ttl)
  }

  ghost predicate ReportTold(jobs: Jobs, report: Report, table0: Table, failures0: map<Key, real>, table: Table,
                             failures: map<Key, real>, now: real, ttl: real) {
    report.result.job in jobs && jobs[report.result.job].isPromotion ==>
      PromotionTold(jobs[report.result.job], report.result, table0, failures0, table, failures, now, ttl)
  }

  /** A report of a promotion under way names none but its keys. */
  ghost predicate Fits(jobs: Jobs, r: Report) {
    r.result.job in jobs && !r.result.success ==> Elements(r.result.successful) <= Elements(jobs[r.result.job].keys)
  }

  /** The promotion is the only transfer of its keys. */
  ghost predicate Alone(table: Table, jobs: Jobs, id: nat)
    requires id in jobs
  {
    forall k :: k in jobs[id].keys ==>
      k in table && table[k].refCnt == -1 && forall j :: j in jobs && j != id ==> k !in jobs[j].keys
  }

  lemma PromotionAlone(table: Table, loads: multiset<Key>, jobs: Jobs, waiting: Waiting, batches: Batches, id: nat)
    requires ClaimsHold(table, loads, jobs, waiting, batches) && id in jobs && jobs[id].isPromotion
    ensures Alone(table, jobs, id)
    ensures forall b, k :: b in batches && batches[b].live && k in batches[b].keys ==> k !in jobs[id].keys
  {
    hide ClaimsHold;
    PromotionWrites(table, loads, jobs, waiting, batches, id);
    forall k | k in jobs[id].keys
      ensures forall j :: j in jobs && j != id ==> k !in jobs[j].keys
      ensures forall b :: b in batches && batches[b].live ==> k !in batches[b].keys
    {
      OneWriter(table, loads, jobs, waiting, batches, id, k);
    }
  }

  lemma OneWriter(table: Table, loads: multiset<Key>, jobs: Jobs, waiting: Waiting, batches: Batches, id: nat, k: Key)
    requires ClaimsHold(table, loads, jobs, waiting, batches)
    requires id in jobs && jobs[id].isPromotion && k in jobs[id].keys && k in table && table[k].refCnt == -1
    ensures forall j :: j in jobs && j != id ==> k !in jobs[j].keys
    ensures forall b :: b in batches && batches[b].live ==> k !in batches[b].keys
  {
    hide Tally;
    var readers, writers := Reads(loads, jobs), Writes(batches, waiting, jobs);
    assert Accounts(table, readers, writers);
    assert readers[k] == 0 && writers[k] == 1;
    TallyRemove(JobKeys(jobs, true), id);
    forall b | b in batches && batches[b].live ensures k !in batches[b].keys {
      if k in batches[b].keys { TallyHas(LiveKeys(batches), b, k); }
    }
    forall j | j in jobs && j != id ensures k !in jobs[j].keys {
      if k in jobs[j].keys {
        TallyHas(if jobs[j].isPromotion then JobKeys(jobs, true) - {id} else JobKeys(jobs, false), j, k);
      }
    }
  }

  // ---- one report ----

  lemma ArrivalTold(table: Table, failures: map<Key, real>, job: Job, result: JobResult, now: real, ttl: real)
    requires !result.success ==> Elements(result.successful) <= Elements(job.keys)
    requires forall k :: k in job.keys ==> k in table && table[k].refCnt == -1
    ensures var arrived := ArrivedKeys(job, result);
            PromotionTold(job, result, table, failures, Arrival(table, job, result),
                          Suppressed(failures - arrived, Drop(job.keys, arrived), now, ttl), now, ttl)
  {
    forall k | k in job.keys
      ensures k in ArrivedKeys(job, result) <==> result.success || k in result.successful
    {}
  }

  lemma ReportTells(table: Table, failures: map<Key, real>, jobs: Jobs, r: Report, now: real, ttl: real)
    requires Fits(jobs, r) && r.result.job in jobs && Alone(table, jobs, r.result.job)
    ensures ReportTold(jobs, r, table, failures, ReportEffect(table, jobs, r), FailureEffect(failures, jobs, r, now, ttl),
        now, ttl)
  {
    hide Arrival, Suppressed, ArrivedKeys, Drop, PromotionTold;
    if jobs[r.result.job].isPromotion {
      ArrivalTold(table, failures, jobs[r.result.job], r.result, now, ttl);
    }
  }

  /** A report leaves the keys alone that its job does not transfer. */
  lemma ReportAside(table: Table, failures: map<Key, real>, jobs: Jobs, r: Report, now: real, ttl: real, k: Key)
    requires Fits(jobs, r) && (r.result.job in jobs ==> k !in jobs[r.result.job].keys)
    ensures SameAt(table, ReportEffect(table, jobs, r), k)
    ensures SameAt(failures, FailureEffect(failures, jobs, r, now, ttl), k)
  {
    if r.result.job in jobs && jobs[r.result.job].isPromotion {
      var job := jobs[r.result.job];
      assert k !in Elements(job.keys);
      assert k !in ArrivedKeys(job, r.result);
    }
  }

  // ---- all reports of a poll ----

  lemma {:induction false} ReportsAside(table: Table, failures: map<Key, real>, jobs: Jobs, reports: seq<Report>,
                                        now: real, ttl: real, k: Key)
    requires forall i :: 0 <= i < |reports| ==>
               Fits(jobs, reports[i]) && (reports[i].result.job in jobs ==> k !in jobs[reports[i].result.job].keys)
    ensures SameAt(table, ReportsEffect(table, jobs, reports), k)
    ensures SameAt(failures, FailuresEffect(failures, jobs, reports, now, ttl), k)
  {
    hide ReportEffect, FailureEffect, Fits;
    if reports != [] {
      var front, last := reports[..|reports| - 1], reports[|reports| - 1];
      ReportsAside(table, failures, jobs, front, now, ttl, k);
      ReportAside(ReportsEffect(table, jobs, front), FailuresEffect(failures, jobs, front, now, ttl), jobs, last, now, ttl,
                  k);
    }
  }

  lemma {:induction false} ReportsTell(table: Table, failures: map<Key, real>, jobs: Jobs, reports: seq<Report>,
                                       now: real, ttl: real, i: nat)
    requires i < |reports| && reports[i].result.job in jobs && Alone(table, jobs, reports[i].result.job)
    requires forall j :: 0 <= j < |reports| ==> Fits(jobs, reports[j])
    requires forall j :: 0 <= j < |reports| && j != i ==> reports[j].result.job != reports[i].result.job
    ensures ReportTold(jobs, reports[i], table, failures, ReportsEffect(table, jobs, reports),
                       FailuresEffect(failures, jobs, reports, now, ttl), now, ttl)
  {
    hide ReportEffect, FailureEffect, Fits;
    var front, last := reports[..|reports| - 1], reports[|reports| - 1];
    var table1, failures1 := ReportsEffect(table, jobs, front), FailuresEffect(failures, jobs, front, now, ttl);
    if i == |front| {
      AsBefore(table, failures, jobs, front, now, ttl, last.result.job);
      ReportTells(table1, failures1, jobs, last, now, ttl);
    } else {
      ReportsTell(table, failures, jobs, front, now, ttl, i);
      StillTold(table, failures, table1, failures1, jobs, last, now, ttl, reports[i]);
    }
  }

  /** A report of another job changes nothing for it. */
  lemma StillTold(table0: Table, failures0: map<Key, real>, table: Table, failures: map<Key, real>, jobs: Jobs,
                  r: Report, now: real, ttl: real, told: Report)
    requires ReportTold(jobs, told, table0, failures0, table, failures, now, ttl)
    requires told.result.job in jobs && r.result.job != told.result.job && Alone(table0, jobs, told.result.job)
    requires Fits(jobs, r)
    ensures ReportTold(jobs, told, table0, failures0, ReportEffect(table, jobs, r),
                       FailureEffect(failures, jobs, r, now, ttl), now, ttl)
  {
    hide Fits, ReportEffect, FailureEffect;
    forall k | k in jobs[told.result.job].keys
      ensures SameAt(table, ReportEffect(table, jobs, r), k)
      ensures SameAt(failures, FailureEffect(failures, jobs, r, now, ttl), k)
    {
      ReportAside(table, failures, jobs, r, now, ttl, k);
    }
  }

  /** Reports of other jobs leave the keys of a promotion as they were. */
  lemma AsBefore(table: Table, failures: map<Key, real>, jobs: Jobs, reports: seq<Report>, now: real, ttl: real, id: nat)
    requires id in jobs && Alone(table, jobs, id)
    requires forall j :: 0 <= j < |reports| ==> Fits(jobs, reports[j]) && reports[j].result.job != id
    ensures forall k :: k in jobs[id].keys ==>
              && SameAt(table, ReportsEffect(table, jobs, reports), k)
              && SameAt(failures, FailuresEffect(failures, jobs, reports, now, ttl), k)
    ensures Alone(ReportsEffect(table, jobs, reports), jobs, id)
  {
    hide Fits;
    forall k | k in jobs[id].keys
      ensures SameAt(table, ReportsEffect(table, jobs, reports), k)
      ensures SameAt(failures, FailuresEffect(failures, jobs, reports, now, ttl), k)
    {
      ReportsAside(table, failures, jobs, reports, now, ttl, k);
    }
  }

  lemma AllReportsTell(table: Table, loads: multiset<Key>, jobs: Jobs, waiting: Waiting, batches: Batches,
                       failures: map<Key, real>, reports: seq<Report>, now: real, ttl: real)
    requires ClaimsHold(table, loads, jobs, waiting, batches)
    requires forall i :: 0 <= i < |reports| ==> Fits(jobs, reports[i])
    requires forall i, j :: 0 <= i < j < |reports| ==> reports[i].result.job != reports[j].result.job
    ensures ReportsTold(jobs, reports, table, failures, ReportsEffect(table, jobs, reports),
                        FailuresEffect(failures, jobs, reports, now, ttl), now, ttl)
  {
    hide ClaimsHold, Fits, ReportsEffect, FailuresEffect, PromotionTold;
    forall i | 0 <= i < |reports|
      ensures ReportTold(jobs, reports[i], table, failures, ReportsEffect(table, jobs, reports),
                         FailuresEffect(failures, jobs, reports, now, ttl), now, ttl)
    {
      if reports[i].result.job in jobs && jobs[reports[i].result.job].isPromotion {
        PromotionAlone(table, loads, jobs, waiting, batches, reports[i].result.job);
        ReportsTell(table, failures, jobs, reports, now, ttl, i);
      }
    }
  }

  /** A promotion that is still under way for longer than `limit`. */
  predicate Overdue(jobs: Jobs, startedAt: map<nat, real>, reports: seq<Report>, id: nat, limit: real, now: real) {
    && id in jobs && jobs[id].isPromotion && !(exists i :: 0 <= i < |reports| && reports[i].result.job == id)
    && limit > 0.0 && id in startedAt && now > startedAt[id] + limit
  }

  /** What a poll comes to: reported promotions end as their tiers say, those
      under way for too long fail, and no other job goes. */
  ghost predicate PollTold(jobs0: Jobs, startedAt0: map<nat, real>, reports: seq<Report>, limit: real, table0: Table,
                           failures0: map<Key, real>, jobs: Jobs, table: Table, failures: map<Key, real>, now: real,
                           ttl: real) {
    && ReportsTold(jobs0, reports, table0, failures0, table, failures, now, ttl)
    && (forall id, k :: Overdue(jobs0, startedAt0, reports, id, limit, now) && k in jobs0[id].keys ==>
          KeyTold(k, false, table0, failures0, table, failures, now, ttl))
    && jobs.Keys <= jobs0.Keys
    && forall id :: id in jobs0 ==>
         && (id in jobs ==> jobs[id] == jobs0[id])
         && (id !in jobs <==> Overdue(jobs0, startedAt0, reports, id, limit, now)
                              || exists i :: 0 <= i < |reports| && reports[i].result.job == id)
  }

  /** The stores whose deadline has passed are taken back, with their blocks. */
  ghost predicate StoresTold(deadline0: map<Key, real>, deadline: map<Key, real>, table: Table, storeTtl: real, now: real) {
    && deadline.Keys <= deadline0.Keys
    && forall k :: k in deadline0 ==>
         && (k in deadline <==> storeTtl <= 0.0 || now <= deadline0[k])
         && (k in deadline ==> deadline[k] == deadline0[k]) && (k !in deadline ==> k !in table)
  }

  lemma LateTold(deadline: map<Key, real>, storeTtl: real, now: real)
    ensures var late := if storeTtl > 0.0 then Late(deadline, now) else {};
            forall table: Table :: late !! table.Keys ==> StoresTold(deadline, deadline - late, table, storeTtl, now)
  {}

  lemma PolledLate(table: Table, jobs: Jobs, startedAt: map<nat, real>, late: set<Key>, reports: seq<Report>,
                   limit: real, now: real)
    ensures late !! Polled(table, jobs, startedAt, late, reports, limit, now).Keys
  {
    hide ReportsEffect, KeysOf, Wedged;
  }

  lemma Reported(reports: seq<Report>, id: nat)
    ensures id in JobsOf(reports) <==> exists i :: 0 <= i < |reports| && reports[i].result.job == id
  {}

  lemma JobsLeft(jobs: Jobs, startedAt: map<nat, real>, reports: seq<Report>, limit: real, now: real)
    ensures var left := PolledJobs(jobs, startedAt, reports, limit, now);
            && left.Keys <= jobs.Keys
            && forall id :: id in jobs ==>
                 && (id in left ==> left[id] == jobs[id])
                 && (id !in left <==> Overdue(jobs, startedAt, reports, id, limit, now)
                                      || exists i :: 0 <= i < |reports| && reports[i].result.job == id)
  {
    hide JobsOf;
    forall id ensures id in JobsOf(reports) <==> exists i :: 0 <= i < |reports| && reports[i].result.job == id {
      Reported(reports, id);
    }
  }

  /** After its reports a poll leaves the keys alone that no other job and no
      overdue store has. */
  lemma PollAside(table: Table, jobs: Jobs, startedAt: map<nat, real>, late: set<Key>, failures: map<Key, real>,
                  reports: seq<Report>, limit: real, ttl: real, now: real, k: Key)
    requires k !in late && forall j :: j in jobs && j !in JobsOf(reports) ==> k !in jobs[j].keys
    ensures SameAt(ReportsEffect(table, jobs, reports), Polled(table, jobs, startedAt, late, reports, limit, now), k)
    ensures SameAt(FailuresEffect(failures, jobs, reports, now, ttl),
                   PolledFailures(failures, jobs, startedAt, reports, limit, ttl, now), k)
  {
    hide ReportsEffect, FailuresEffect, JobsOf, Wedged;
  }

  lemma ReportSurvives(table: Table, loads: multiset<Key>, jobs: Jobs, waiting: Waiting, batches: Batches,
                       deadline: map<Key, real>, owner: map<Key, (Req, nat)>, storeTtl: real, startedAt: map<nat, real>,
                       failures: map<Key, real>, reports: seq<Report>, limit: real, ttl: real, now: real, i: nat)
    requires ClaimsHold(table, loads, jobs, waiting, batches) && ArmedHold(deadline, owner, batches, storeTtl > 0.0)
    requires forall j :: 0 <= j < |reports| ==> Fits(jobs, reports[j])
    requires forall j, l :: 0 <= j < l < |reports| ==> reports[j].result.job != reports[l].result.job
    requires i < |reports| && reports[i].result.job in jobs && jobs[reports[i].result.job].isPromotion
    ensures var late := if storeTtl > 0.0 then Late(deadline, now) else {};
            ReportTold(jobs, reports[i], table, failures, Polled(table, jobs, startedAt, late, reports, limit, now),
                       PolledFailures(failures, jobs, startedAt, reports, limit, ttl, now), now, ttl)
  {
    hide ClaimsHold, ArmedHold, Fits, ReportsEffect, FailuresEffect, Polled, PolledFailures;
    var id := reports[i].result.job;
    var late := if storeTtl > 0.0 then Late(deadline, now) else {};
    PromotionAlone(table, loads, jobs, waiting, batches, id);
    ReportsTell(table, failures, jobs, reports, now, ttl, i);
    forall k | k in jobs[id].keys
      ensures SameAt(ReportsEffect(table, jobs, reports), Polled(table, jobs, startedAt, late, reports, limit, now), k)
      ensures SameAt(FailuresEffect(failures, jobs, reports, now, ttl),
                     PolledFailures(failures, jobs, startedAt, reports, limit, ttl, now), k)
    {
      NotArmed(deadline, owner, batches, storeTtl > 0.0, k);
      PollAside(table, jobs, startedAt, late, failures, reports, limit, ttl, now, k);
    }
  }

  lemma NotArmed(deadline: map<Key, real>, owner: map<Key, (Req, nat)>, batches: Batches, timed: bool, k: Key)
    requires ArmedHold(deadline, owner, batches, timed)
    requires forall b :: b in batches && batches[b].live ==> k !in batches[b].keys
    ensures k !in deadline
  {}

  lemma OverdueFails(table: Table, loads: multiset<Key>, jobs: Jobs, waiting: Waiting, batches: Batches,
                     startedAt: map<nat, real>, failures: map<Key, real>, reports: seq<Report>, limit: real, ttl: real,
                     now: real, late: set<Key>, id: nat, k: Key)
    requires ClaimsHold(table, loads, jobs, waiting, batches)
    requires forall j :: 0 <= j < |reports| ==> Fits(jobs, reports[j])
    requires Overdue(jobs, startedAt, reports, id, limit, now) && k in jobs[id].keys
    ensures KeyTold(k, false, table, failures, Polled(table, jobs, startedAt, late, reports, limit, now),
                    PolledFailures(failures, jobs, startedAt, reports, limit, ttl, now), now, ttl)
  {
    hide ClaimsHold, Fits, ReportsEffect, FailuresEffect, JobsOf;
    Reported(reports, id);
    PromotionAlone(table, loads, jobs, waiting, batches, id);
    ReportsAside(table, failures, jobs, reports, now, ttl, k);
    var open, times := jobs - JobsOf(reports), startedAt - JobsOf(reports);
    assert id in Wedged(open, times, limit, now);
    assert k in KeysOf(open, Wedged(open, times, limit, now));
  }

  lemma PollTells(table: Table, loads: multiset<Key>, jobs: Jobs, waiting: Waiting, batches: Batches,
                  deadline: map<Key, real>, owner: map<Key, (Req, nat)>, storeTtl: real, startedAt: map<nat, real>,
                  failures: map<Key, real>, reports: seq<Report>, limit: real, ttl: real, now: real)
    requires ClaimsHold(table, loads, jobs, waiting, batches) && ArmedHold(deadline, owner, batches, storeTtl > 0.0)
    requires forall i :: 0 <= i < |reports| ==> Fits(jobs, reports[i])
    requires forall i, j :: 0 <= i < j < |reports| ==> reports[i].result.job != reports[j].result.job
    ensures var late := if storeTtl > 0.0 then Late(deadline, now) else {};
            PollTold(jobs, startedAt, reports, limit, table, failures,
                     PolledJobs(jobs, startedAt, reports, limit, now),
                     Polled(table, jobs, startedAt, late, reports, limit, now),
                     PolledFailures(failures, jobs, startedAt, reports, limit, ttl, now), now, ttl)
  {
    hide ClaimsHold, ArmedHold, Fits, KeyTold, Polled, PolledJobs, PolledFailures;
    var late := if storeTtl > 0.0 then Late(deadline, now) else {};
    forall i | 0 <= i < |reports|
      ensures ReportTold(jobs, reports[i], table, failures, Polled(table, jobs, startedAt, late, reports, limit, now),
                         PolledFailures(failures, jobs, startedAt, reports, limit, ttl, now), now, ttl)
    {
      if reports[i].result.job in jobs && jobs[reports[i].result.job].isPromotion {
        ReportSurvives(table, loads, jobs, waiting, batches, deadline, owner, storeTtl, startedAt, failures, reports,
                       limit, ttl, now, i);
      }
    }
    forall id, k | Overdue(jobs, startedAt, reports, id, limit, now) && k in jobs[id].keys
      ensures KeyTold(k, false, table, failures, Polled(table, jobs, startedAt, late, reports, limit, now),
                      PolledFailures(failures, jobs, startedAt, reports, limit, ttl, now), now, ttl)
    {
      OverdueFails(table, loads, jobs, waiting, batches, startedAt, failures, reports, limit, ttl, now, late, id, k);
    }
    JobsLeft(jobs, startedAt, reports, limit, now);
  }

  /** The jobs that are new since are under way from `now` on. */
  ghost predicate StartedNow(jobs0: Jobs, startedAt0: map<nat, real>, jobs: Jobs, startedAt: map<nat, real>, now: real) {
    && jobs0.Keys <= jobs.Keys
    && forall id :: id in jobs ==>
         if id in jobs0 then SameAt(startedAt0, startedAt, id) else id in startedAt && startedAt[id] == now
  }

  lemma NoneStarted(jobs: Jobs, startedAt: map<nat, real>, now: real)
    ensures StartedNow(jobs, startedAt, jobs, startedAt, now)
  {}

  lemma OneStarted(jobs0: Jobs, startedAt0: map<nat, real>, jobs: Jobs, startedAt: map<nat, real>, now: real, id: nat,
                   job: Job)
    requires StartedNow(jobs0, startedAt0, jobs, startedAt, now)
    ensures id !in jobs ==> StartedNow(jobs0, startedAt0, jobs[id := job], startedAt[id := now], now)
  {}

  // ---- lookups ----

  /** The first of the tiers asked that has the block. */
  predicate FirstHolder(replies: seq<LookupResult>, asked: set<nat>, i: nat) {
    i < |replies| && i in asked && replies[i] == Hit && forall j: nat :: j < i && j in asked ==> replies[j] != Hit
  }

  /** There is a slot for one block more: a free one, or that of an idle block
      which the policy can evict. */
  ghost predicate SlotFor(table: Table, primary: CpuOffloadingManager, order: PolicyState) {
    |table| < primary.numBlocks || !OutOfReach(table, IdleKeys(table), order, 1)
  }

  /** `key` is about to be written; if no slot was free, one idle block is gone. */
  ghost predicate OneReserved(table0: Table, table: Table, key: Key, free: bool) {
    && key in table && table[key].refCnt == -1
    && (forall k :: k in table && k != key ==> k in table0 && table[k] == table0[k])
    && (forall k :: k in table0 && k !in table ==> table0[k].refCnt == 0)
    && |table| == |table0| + if free then 1 else 0
  }

  /** The transfer of `key` to its slot waits behind the others of its kind. */
  ghost predicate Queued(waiting0: Waiting, waiting: Waiting, p: (nat, Req), key: Key, slot: nat) {
    var (keys, slots) := if p in waiting0 then (waiting0[p].keys, waiting0[p].slots) else ([], []);
    waiting == waiting0[p := Pending(keys + [key], slots + [slot])]
  }

  ghost predicate Promoted(ok: bool, table0: Table, waiting0: Waiting, table: Table, waiting: Waiting, p: (nat, Req),
                           key: Key, free: bool) {
    if ok then OneReserved(table0, table, key, free) && Queued(waiting0, waiting, p, key, table[key].id)
    else table == table0 && waiting == waiting0
  }

  /** What a lookup answers and changes. A block that is not there is promoted
      from the first tier that has it, unless its promotion failed lately or
      there is no slot. */
  ghost predicate LookedUp(table0: Table, failures0: map<Key, real>, waiting0: Waiting, slot: bool, free: bool,
                           table: Table, failures: map<Key, real>, waiting: Waiting, key: Key, req: Req,
                           asked: set<nat>, replies: seq<LookupResult>, r: LookupResult, now: real) {
    if key in table0 then
      && r == (if table0[key].refCnt >= 0 then Hit else HitPending)
      && table == table0 && waiting == waiting0 && failures == failures0
    else if (key in failures0 && failures0[key] > now) || forall i: nat :: !FirstHolder(replies, asked, i) then
      && r == (if exists i :: 0 <= i < |replies| && i in asked && replies[i] == Retry then Retry else Miss)
      && table == table0 && waiting == waiting0 && failures == failures0
    else
      && r == (if slot then HitPending else Miss) && failures == failures0 - {key}
      && exists i: nat ::
           FirstHolder(replies, asked, i) && Promoted(slot, table0, waiting0, table, waiting, (i, req), key, free)
  }

  lemma FoundInTier(table: Table, failures: map<Key, real>, waiting: Waiting, slot: bool, free: bool, key: Key, req: Req,
                    asked: set<nat>, replies: seq<LookupResult>, r: LookupResult, now: real)
    requires key in table && r == if table[key].refCnt >= 0 then Hit else HitPending
    ensures LookedUp(table, failures, waiting, slot, free, table, failures, waiting, key, req, asked, replies, r, now)
  {}

  lemma FoundNowhere(table: Table, failures: map<Key, real>, waiting: Waiting, slot: bool, free: bool, key: Key, req: Req,
                     asked: set<nat>, replies: seq<LookupResult>, r: LookupResult, now: real)
    requires key !in table
    requires (key in failures && failures[key] > now) || forall i: nat :: !FirstHolder(replies, asked, i)
    requires r == if exists i :: 0 <= i < |replies| && i in asked && replies[i] == Retry then Retry else Miss
    ensures LookedUp(table, failures, waiting, slot, free, table, failures, waiting, key, req, asked, replies, r, now)
  {}

  lemma FoundBelow(table0: Table, failures: map<Key, real>, waiting0: Waiting, slot: bool, free: bool, table: Table,
                   waiting: Waiting, key: Key, req: Req, asked: set<nat>, replies: seq<LookupResult>, r: LookupResult,
                   now: real, i: nat)
    requires key !in table0 && FirstHolder(replies, asked, i) && (key in failures ==> failures[key] <= now)
    requires r == if slot then HitPending else Miss
    requires Promoted(slot, table0, waiting0, table, waiting, (i, req), key, free)
    ensures LookedUp(table0, failures, waiting0, slot, free, table, failures - {key}, waiting, key, req, asked, replies, r,
                     now)
  {
    hide Promoted;
  }

  lemma SlotDecides(table: Table, key: Key, primary: CpuOffloadingManager, order: PolicyState, r: Option<StoreOutput>)
    requires key !in table && |table| <= primary.numBlocks && RoomDecides(table, [key], primary, order, r)
    ensures r.Some? <==> SlotFor(table, primary, order)
    ensures r.Some? ==> |r.value.evicted| == if |table| < primary.numBlocks then 0 else 1
  {
    hide OutOfReach, Drop;
    DropNothing([key], table.Keys);
    NotIdle(table, key);
  }

  lemma NotIdle(table: Table, key: Key)
    requires key !in table
    ensures IdleKeys(table) - Elements([key]) == IdleKeys(table)
  {}

  lemma SlotSince(table: Table, primary: CpuOffloadingManager, before: PolicyState, order: PolicyState)
    requires OnlyForgets(before, order) && ListsFit(order, table) && ListsApart(before)
    requires before.ArcState? <==> order.ArcState?
    ensures SlotFor(table, primary, before) <==> SlotFor(table, primary, order)
  {
    ReachKept(table, IdleKeys(table), before, order, 1);
  }

  lemma ReservedForOne(table: Table, evicted: seq<Key>, key: Key, slot: nat)
    requires key !in table && |evicted| <= 1 && forall k :: k in evicted ==> k in IdleKeys(table)
    ensures var after := Reserved(table - Elements(evicted), [key], [slot]);
            OneReserved(table, after, key, evicted == []) && after[key].id == slot
  {
    hide Elements, IdleKeys;
    ReservedSingle(table - Elements(evicted), key, slot);
    OneLess(table, evicted);
  }

  lemma NotPromoted(table: Table, waiting: Waiting, p: (nat, Req), key: Key, free: bool)
    ensures Promoted(false, table, waiting, table, waiting, p, key, free)
  {}

  lemma PromotionIs(table: Table, waiting: Waiting, evicted: seq<Key>, key: Key, slot: nat, p: (nat, Req), free: bool)
    requires key !in table && |evicted| == (if free then 0 else 1) && forall k :: k in evicted ==> k in IdleKeys(table)
    ensures var more := Pending(Entry(waiting, p).keys + [key], Entry(waiting, p).slots + [slot]);
            Promoted(true, table, waiting, Reserved(table - Elements(evicted), [key], [slot]), waiting[p := more], p, key,
                free)
  {
    hide Reserved, OneReserved, Elements, IdleKeys;
    ReservedForOne(table, evicted, key, slot);
  }

  lemma ReservedSingle(table: Table, key: Key, slot: nat)
    ensures Reserved(table, [key], [slot]) == table[key := Block(-1, slot)]
    ensures key !in table ==> |table[key := Block(-1, slot)]| == |table| + 1
  {
    if key !in table { OneMoreBlock(table, key, Block(-1, slot)); }
    var keys: seq<Key>, slots: seq<nat> := [key], [slot];
    assert keys[..0] == [] && slots[..0] == [];
    assert Reserved(table, keys[..0], slots[..0]) == table;
  }

  lemma OneMoreBlock(table: Table, key: Key, block: Block)
    requires key !in table
    ensures |table[key := block]| == |table| + 1
  {
    assert table[key := block].Keys == table.Keys + {key};
  }

  lemma OneLess(table: Table, evicted: seq<Key>)
    requires |evicted| <= 1 && forall k :: k in evicted ==> k in IdleKeys(table)
    ensures |table - Elements(evicted)| == |table| - |evicted|
    ensures forall k :: k in table && k !in table - Elements(evicted) ==> table[k].refCnt == 0
  {
    if evicted == [] {
      assert table - Elements(evicted) == table;
    } else {
      assert Elements(evicted) == {evicted[0]};
      assert (table - {evicted[0]}).Keys == table.Keys - {evicted[0]};
    }
  }
}
