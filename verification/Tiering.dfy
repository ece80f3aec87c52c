/** `TieringOffloadingManager`: a CPU tier in front of secondary tiers. The
    replies and reports of the tiers and the clock are arguments. */
module Tiering {
  import opened Sequences
  import opened Blocks
  import opened CachePolicies
  import opened SlotPool
  import opened CpuManager
  import opened Claims
  import opened RequestLog
  import opened TieringState
  import opened Outcomes

  class TieringManager {
    const primary: CpuOffloadingManager
    const numTiers: nat
    const promotionTtl: real
    const failTtl: real
    const storeTtl: real
    var jobIdCounter: nat
    var jobs: Jobs
    var startedAt: map<nat, real>
    var waiting: Waiting
    var processedThisStep: bool
    var failures: map<Key, real>
    var retracted: set<nat>
    var drained: map<nat, real>
    var deadline: map<Key, real>
    var owner: map<Key, (Req, nat)>
    var states: map<Req, ReqState>
    /** Keys of the loads to the GPU that have not completed. */
    ghost var loads: multiset<Key>
    /** Prepared stores that have not completed. */
    ghost var batches: Batches
    ghost var nextBatch: nat
    /** Requests announced so far, and those reported finished. */
    ghost var known: set<Req>
    ghost var over: set<Req>
    ghost var trace: seq<Event>

    ghost function Held(): Table
      reads primary.policy.Objects()
    {
      primary.policy.Held()
    }

    /** What the policy of the tier decides from. */
    ghost function Order(): PolicyState
      reads primary.policy.Objects()
    {
      primary.policy.State()
    }

    /** Everything but the request log. */
    ghost predicate Core()
      reads this, primary, primary.policy.Objects()
    {
      && this !in primary.policy.Objects()
      && primary.Valid() && primary.counts.None?
      && ClaimsHold(primary.policy.Held(), loads, jobs, waiting, batches)
      && IdsHold(jobIdCounter, jobs, startedAt, retracted, drained, batches, nextBatch, numTiers)
      && ArmedHold(deadline, owner, batches, storeTtl > 0.0)
      && TiersExist(waiting, states, numTiers)
    }

    ghost predicate Log(but: set<Req>)
      reads this
    {
      RequestsHold(states, batches, known, over, trace, but)
    }

    ghost predicate Valid()
      reads this, primary, primary.policy.Objects()
    {
      Core() && Log({})
    }

    constructor (primary: CpuOffloadingManager, numTiers: nat, promotionTtl: real, failTtl: real, storeTtl: real)
      requires primary.Valid() && primary.Held() == map[] && primary.counts.None?
      ensures Valid() && this.primary == primary && this.numTiers == numTiers
      ensures this.promotionTtl == promotionTtl && this.failTtl == failTtl && this.storeTtl == storeTtl
      ensures jobs == map[]
    {
      hide ClaimsHold, IdsHold, ArmedHold, TiersExist, RequestsHold, CpuOffloadingManager.Valid, CachePolicy.Held,
          Consistent;
      this.primary, this.numTiers := primary, numTiers;
      this.promotionTtl, this.failTtl, this.storeTtl := promotionTtl, failTtl, storeTtl;
      jobIdCounter, jobs, startedAt, waiting, processedThisStep := 0, map[], map[], map[], false;
      failures, retracted, drained, deadline, owner, states := map[], {}, map[], map[], map[], map[];
      loads, batches, nextBatch, known, over, trace := multiset{}, map[], 0, {}, {}, [];
      new;
      NothingHolds(0, numTiers, storeTtl > 0.0);
    }

    // ---- finished jobs ----

    /** A report the manager accepts: of a job it knows, by the tier that runs
        it, or of one it has taken back. */
    ghost predicate Reportable(r: Report)
      reads this
    {
      || r.result.job in retracted
      || r.result.job in drained
      || (r.result.job in jobs && jobs[r.result.job].tier == r.tier
          && (!r.result.success ==> Elements(r.result.successful) <= Elements(jobs[r.result.job].keys)))
    }

    ghost predicate ReportsFit(reports: seq<Report>)
      reads this
    {
      && (forall i :: 0 <= i < |reports| ==> Reportable(reports[i]))
      && (forall i, j :: 0 <= i < j < |reports| ==> reports[i].result.job != reports[j].result.job)
    }

    method CompletePromotion(id: nat, job: Job, result: JobResult, now: real)
      requires Core() && id in jobs && jobs[id] == job && job.isPromotion
      requires !result.success ==> Elements(result.successful) <= Elements(job.keys)
      modifies this`jobs, this`startedAt, this`failures
      modifies primary`numEvictable, primary`numWritePending, primary`freeList, primary.policy.Objects()
      ensures Core() && jobs == old(jobs) - {id} && startedAt == old(startedAt) - {id}
      ensures Held() == Arrival(old(Held()), job, result)
      ensures var arrived := ArrivedKeys(job, result);
              failures == Suppressed(old(failures) - arrived, Drop(job.keys, arrived), now, failTtl)
      ensures PromotionTold(job, result, old(Held()), old(failures), Held(), failures, now, failTtl)
      ensures OnlyForgets(old(Order()), Order())
    {
      hide PromotionTold, Arrival, ClaimsHold, IdsHold, ArmedHold, TiersExist, CpuOffloadingManager.Valid,
          CachePolicy.Held, Finished, Keep, KeysAt, Distinct, Drop, Elements, Suppressed, ArrivedKeys, JobKeys,
          CachePolicy.State, PolicyState.Listing, OnlyForgets;
      ForgettingAddsUp();
      var ok, arrived, failed := Arrived(job, result);
      PromotionArrives(primary.policy.Held(), loads, jobs, waiting, batches, id, result, ok);
      PromotionWrites(primary.policy.Held(), loads, jobs, waiting, batches, id);
      ArrivalTold(primary.policy.Held(), failures, job, result, now, failTtl);
      IdsForgetJob(jobIdCounter, jobs, startedAt, retracted, drained, batches, nextBatch, numTiers, id);
      jobs, startedAt := jobs - {id}, startedAt - {id};
      FinishBoth(ok, failed);
      failures := Suppressed(failures - arrived, failed, now, failTtl);
    }

    /** What a report says of the keys of its promotion. */
    method Arrived(job: Job, result: JobResult) returns (ok: seq<Key>, arrived: set<Key>, failed: seq<Key>)
      requires !result.success ==> Elements(result.successful) <= Elements(job.keys)
      ensures arrived == ArrivedKeys(job, result) == Elements(ok) <= Elements(job.keys)
      ensures failed == Drop(job.keys, arrived)
    {
      ok := if result.success then job.keys else result.successful;
      arrived := set k | k in ok;
      assert arrived == Elements(ok);
      failed := Drop(job.keys, arrived);
    }

    /** `complete_write`, called for a non-empty list only. */
    method FinishWrites(keys: seq<Key>, success: bool)
      requires primary.Valid()
      modifies primary`numEvictable, primary`numWritePending, primary`freeList, primary.policy.Objects()
      ensures primary.Valid() && Held() == Finished(old(Held()), keys, success)
      ensures OnlyForgets(old(Order()), Order())
    {
      hide CachePolicy.State, PolicyState.Listing, OnlyForgets;
      ForgettingAddsUp();
      if keys != [] {
        primary.CompleteStore(keys, success);
      } else {
        FinishNothing(Held());
      }
    }

    method FinishBoth(ok: seq<Key>, failed: seq<Key>)
      requires primary.Valid()
      modifies primary`numEvictable, primary`numWritePending, primary`freeList, primary.policy.Objects()
      ensures primary.Valid() && Held() == Finished(Finished(old(Held()), ok, true), failed, false)
      ensures OnlyForgets(old(Order()), Order())
    {
      hide CpuOffloadingManager.Valid, CachePolicy.Held, Finished, CachePolicy.State, PolicyState.Listing, OnlyForgets;
      ForgettingAddsUp();
      FinishWrites(ok, true);
      FinishWrites(failed, false);
    }

    /** The blocks a secondary tier has read lose this reader. */
    method CompleteCascade(id: nat, job: Job)
      requires Core() && id in jobs && jobs[id] == job && !job.isPromotion
      modifies this`jobs, this`startedAt
      modifies primary`numEvictable, primary`numWritePending, primary.policy.Objects()
      ensures Core() && jobs == old(jobs) - {id} && startedAt == old(startedAt) - {id}
      ensures Elements(job.keys) <= old(Held()).Keys && forall k :: k in job.keys ==> k in old(Held())
      ensures Held() == Unpinned(old(Held()), job.keys)
      ensures OnlyForgets(old(Order()), Order())
    {
      hide ClaimsHold, IdsHold, ArmedHold, TiersExist, CpuOffloadingManager.Valid, CachePolicy.Held, Unpinned, Distinct,
          CachePolicy.State, PolicyState.Listing, OnlyForgets;
      ForgettingAddsUp();
      CascadeDone(Held(), loads, jobs, waiting, batches, id);
      IdsForgetJob(jobIdCounter, jobs, startedAt, retracted, drained, batches, nextBatch, numTiers, id);
      jobs, startedAt := jobs - {id}, startedAt - {id};
      CountsForgetNothing(Order());
      primary.CompleteLoad(job.keys);
    }

    /** A late report of a job taken back is only noted. */
    method ReportOne(report: Report, now: real)
      requires Core() && Reportable(report)
      modifies this`jobs, this`startedAt, this`retracted, this`drained, this`failures
      modifies primary`numEvictable, primary`numWritePending, primary`freeList, primary.policy.Objects()
      ensures Core()
      ensures var id := report.result.job;
              && jobs == old(jobs) - {id} && startedAt == old(startedAt) - {id}
              && retracted == old(retracted) - {id} && drained == old(drained) - {id}
      ensures Held() == ReportEffect(old(Held()), old(jobs), report)
      ensures failures == FailureEffect(old(failures), old(jobs), report, now, failTtl)
      ensures ReportTold(old(jobs), report, old(Held()), old(failures), Held(), failures, now, failTtl)
      ensures OnlyForgets(old(Order()), Order())
    {
      hide PromotionTold, ClaimsHold, IdsHold, ArmedHold, TiersExist, CpuOffloadingManager.Valid, CachePolicy.Held,
          Unpinned, Drop, Suppressed, ArrivedKeys, Arrival, Elements, CachePolicy.State, PolicyState.Listing,
          OnlyForgets;
      ForgettingAddsUp();
      var id := report.result.job;
      IdsApart(jobIdCounter, jobs, startedAt, retracted, drained, batches, nextBatch, numTiers, id);
      if id in retracted || id in drained {
        retracted, drained := retracted - {id}, drained - {id};
      } else {
        var job := jobs[id];
        if job.isPromotion {
          CompletePromotion(id, job, report.result, now);
        } else {
          CompleteCascade(id, job);
        }
      }
    }

    method ConsumeReports(reports: seq<Report>, now: real)
      requires Core() && ReportsFit(reports)
      modifies this`jobs, this`startedAt, this`retracted, this`drained, this`failures
      modifies primary`numEvictable, primary`numWritePending, primary`freeList, primary.policy.Objects()
      ensures Core()
      ensures jobs == old(jobs) - JobsOf(reports) && startedAt == old(startedAt) - JobsOf(reports)
      ensures retracted == old(retracted) - JobsOf(reports) && drained == old(drained) - JobsOf(reports)
      ensures Held() == ReportsEffect(old(Held()), old(jobs), reports)
      ensures failures == FailuresEffect(old(failures), old(jobs), reports, now, failTtl)
      ensures ReportsTold(old(jobs), reports, old(Held()), old(failures), Held(), failures, now, failTtl)
      ensures OnlyForgets(old(Order()), Order())
    {
      hide ReportsTold, ReportsEffect, FailuresEffect, ClaimsHold, IdsHold, ArmedHold, TiersExist,
          CpuOffloadingManager.Valid, CachePolicy.Held, ReportEffect, FailureEffect, JobsOf, ConsumedSoFar,
          CachePolicy.State, PolicyState.Listing, OnlyForgets;
      ForgettingAddsUp();
      ReportsAreFit(reports);
      AllReportsTell(Held(), loads, jobs, waiting, batches, failures, reports, now, failTtl);
      NoneConsumed(Held(), jobs, startedAt, retracted, drained, failures, reports, now, failTtl);
      var i := 0;
      while i < |reports|
        invariant 0 <= i <= |reports| && Core()
        invariant forall j :: i <= j < |reports| ==> Reportable(reports[j])
        invariant OnlyForgets(old(Order()), Order())
        invariant ConsumedSoFar(old(Held()), old(jobs), old(startedAt), old(retracted), old(drained), old(failures),
                                Held(), jobs, startedAt, retracted, drained, failures, reports, i, now, failTtl)
        modifies this`jobs, this`startedAt, this`retracted, this`drained, this`failures
        modifies primary`numEvictable, primary`numWritePending, primary`freeList, primary.policy.Objects()
      {
        OneConsumed(old(Held()), old(jobs), old(startedAt), old(retracted), old(drained), old(failures),
                    Held(), jobs, startedAt, retracted, drained, failures, reports, i, now, failTtl);
        ReportOne(reports[i], now);
        i := i + 1;
      }
      AllConsumed(old(Held()), old(jobs), old(startedAt), old(retracted), old(drained), old(failures),
                  Held(), jobs, startedAt, retracted, drained, failures, reports, now, failTtl);
    }

    lemma ReportsAreFit(reports: seq<Report>)
      requires Core() && ReportsFit(reports)
      ensures forall i :: 0 <= i < |reports| ==> Reportable(reports[i]) && Fits(jobs, reports[i])
      ensures forall i, j :: 0 <= i < j < |reports| ==> reports[i].result.job != reports[j].result.job
    {
      hide ClaimsHold, ArmedHold, TiersExist, CpuOffloadingManager.Valid, CachePolicy.Held;
    }

    // ---- promotions that never end ----

    /** Takes back one promotion: its blocks are freed and its keys suppressed. */
    method ExpireOne(id: nat, now: real)
      requires Core() && id in jobs && jobs[id].isPromotion
      modifies this`jobs, this`startedAt, this`retracted, this`failures
      modifies primary`numEvictable, primary`numWritePending, primary`freeList, primary.policy.Objects()
      ensures Core()
      ensures jobs == old(jobs) - {id} && startedAt == old(startedAt) - {id} && retracted == old(retracted) + {id}
      ensures Held() == old(Held()) - Elements(old(jobs)[id].keys)
      ensures failures == Suppressed(old(failures), old(jobs)[id].keys, now, failTtl)
      ensures OnlyForgets(old(Order()), Order())
    {
      hide ClaimsHold, IdsHold, ArmedHold, TiersExist, CpuOffloadingManager.Valid, CachePolicy.Held, Finished,
          Suppressed, CachePolicy.State, PolicyState.Listing, OnlyForgets;
      ForgettingAddsUp();
      var keys := jobs[id].keys;
      PromotionGivenUp(Held(), loads, jobs, waiting, batches, id);
      PromotionWrites(Held(), loads, jobs, waiting, batches, id);
      IdsForgetJob(jobIdCounter, jobs, startedAt, retracted, drained, batches, nextBatch, numTiers, id);
      jobs, startedAt, retracted := jobs - {id}, startedAt - {id}, retracted + {id};
      primary.CompleteStore(keys, false);
      failures := Suppressed(failures, keys, now, failTtl);
    }

    method ExpireStalePromotions(now: real)
      requires Core()
      modifies this`jobs, this`startedAt, this`retracted, this`failures
      modifies primary`numEvictable, primary`numWritePending, primary`freeList, primary.policy.Objects()
      ensures Core()
      ensures var expired := Wedged(old(jobs), old(startedAt), promotionTtl, now);
              && jobs == old(jobs) - expired && retracted == old(retracted) + expired
              && Held() == old(Held()) - KeysOf(old(jobs), expired)
              && failures == AllSuppressed(old(failures), KeysOf(old(jobs), expired), now, failTtl)
      ensures OnlyForgets(old(Order()), Order())
    {
      hide ClaimsHold, IdsHold, ArmedHold, TiersExist, CpuOffloadingManager.Valid, CachePolicy.Held, Suppressed,
          AllSuppressed, KeysOf, Elements, ExpiredSoFar, CachePolicy.State, PolicyState.Listing, OnlyForgets;
      ForgettingAddsUp();
      var expired := Wedged(jobs, startedAt, promotionTtl, now);
      var todo := expired;
      ghost var gone: set<nat> := {};
      NoneExpired(Held(), jobs, retracted, failures, now, failTtl);
      while todo != {}
        invariant Core() && todo == expired - gone && gone <= expired
        invariant OnlyForgets(old(Order()), Order())
        invariant ExpiredSoFar(old(Held()), old(jobs), old(retracted), old(failures), Held(), jobs, retracted,
            failures, gone, now, failTtl)
        decreases todo
        modifies this`jobs, this`startedAt, this`retracted, this`failures
        modifies primary`numEvictable, primary`numWritePending, primary`freeList, primary.policy.Objects()
      {
        var id :| id in todo;
        OneExpired(old(Held()), old(jobs), old(retracted), old(failures), Held(), jobs, retracted, failures, gone,
            now, failTtl, expired, id);
        ExpireOne(id, now);
        todo, gone := todo - {id}, gone + {id};
      }
      assert gone == expired;
      AllExpired(old(Held()), old(jobs), old(retracted), old(failures), Held(), jobs, retracted, failures, gone, now,
          failTtl);
    }

    // ---- stores from the GPU that never complete ----

    /** Ends the writes of one store and disarms its keys. When the store was taken
        back before, there is nothing left to end. */
    method EndStore(keys: seq<Key>, success: bool, ghost b: nat)
      requires Valid() && b in batches && Elements(keys) == Elements(batches[b].keys)
      requires batches[b].live || forall k :: k in keys ==> k !in WritingBlocks(Held())
      modifies this`deadline, this`owner, this`batches
      modifies primary`numEvictable, primary`numWritePending, primary`freeList, primary.policy.Objects()
      ensures Valid()
      ensures deadline == old(deadline) - Elements(keys) && owner == old(owner) - Elements(keys)
      ensures batches == old(batches)[b := old(batches)[b].(live := false)]
      ensures Held() == Finished(old(Held()), keys, success)
      ensures old(batches)[b].live ==>
        && (!success ==> Held() == old(Held()) - Elements(keys))
        && forall k :: k in keys ==> k in old(Held()) && old(Held())[k].refCnt == -1
      ensures !old(batches)[b].live ==> Held() == old(Held()) && deadline == old(deadline) && batches == old(batches)
      ensures OnlyForgets(old(Order()), Order())
    {
      hide ClaimsHold, IdsHold, ArmedHold, TiersExist, RequestsHold, CpuOffloadingManager.Valid, CachePolicy.Held,
          CachePolicy.State, PolicyState.Listing, Keep, KeysAt, Distinct, Finished, Elements, Without, OnlyForgets;
      ForgettingAddsUp();
      WritesEnd(Held(), loads, jobs, waiting, batches, b, keys, success, deadline, owner, storeTtl > 0.0);
      LogAndIdsKept(jobIdCounter, jobs, startedAt, retracted, drained, batches, nextBatch, numTiers, b, states, known, over,
                    trace);
      batches := batches[b := batches[b].(live := false)];
      deadline, owner := Without(deadline, keys), Without(owner, keys);
      primary.CompleteStore(keys, success);
    }

    /** Frees the blocks of one overdue store. The store stays pending. */
    method TakeBack(keys: seq<Key>, job: nat, ghost b: nat)
      requires Valid() && b in batches && batches[b].live && batches[b].job == job
      requires Elements(keys) == Elements(batches[b].keys)
      modifies this`deadline, this`owner, this`retracted, this`batches
      modifies primary`numEvictable, primary`numWritePending, primary`freeList, primary.policy.Objects()
      ensures Valid() && retracted == old(retracted) + {job}
      ensures deadline == old(deadline) - Elements(keys) && owner == old(owner) - Elements(keys)
      ensures batches == old(batches)[b := old(batches)[b].(live := false)]
      ensures Held() == old(Held()) - Elements(keys)
      ensures OnlyForgets(old(Order()), Order())
    {
      hide ClaimsHold, IdsHold, ArmedHold, TiersExist, RequestsHold, CpuOffloadingManager.Valid, CachePolicy.Held,
          Finished, Elements, CachePolicy.State, PolicyState.Listing, OnlyForgets;
      ForgettingAddsUp();
      EndStore(keys, false, b);
      IdsDeadBatch(jobIdCounter, jobs, startedAt, retracted, drained, batches, nextBatch, numTiers, b);
      assert batches[b := batches[b].(live := false)] == batches;
      retracted := retracted + {job};
    }

    /** Takes back the store that the overdue `key` belongs to. */
    method TakeBackStoreOf(key: Key, now: real) returns (group: set<Key>)
      requires Valid() && storeTtl > 0.0 && key in owner && key in deadline && now > deadline[key]
      modifies this`deadline, this`owner, this`retracted, this`batches
      modifies primary`numEvictable, primary`numWritePending, primary`freeList, primary.policy.Objects()
      ensures Valid() && retracted == old(retracted) + {old(owner)[key].1}
      ensures group == OverdueWith(old(deadline), old(owner), now, key) && Held() == old(Held()) - group
      ensures deadline == old(deadline) - group && owner == old(owner) - group
      ensures OnlyForgets(old(Order()), Order())
    {
      hide ClaimsHold, IdsHold, ArmedHold, TiersExist, RequestsHold, CpuOffloadingManager.Valid, CachePolicy.Held,
          Finished, Elements, CachePolicy.State, PolicyState.Listing, OnlyForgets;
      ForgettingAddsUp();
      group := OverdueWith(deadline, owner, now, key);
      var keys := Listed(group);
      ghost var b := OverdueIsOneStore(deadline, owner, batches, storeTtl > 0.0, now, key);
      TakeBack(keys, owner[key].1, b);
    }

    method ExpireStaleStorePends(now: real)
      requires Valid()
      modifies this`deadline, this`owner, this`retracted, this`batches
      modifies primary`numEvictable, primary`numWritePending, primary`freeList, primary.policy.Objects()
      ensures Valid()
      ensures var late := if storeTtl > 0.0 then Late(old(deadline), now) else {};
              && deadline == old(deadline) - late && owner == old(owner) - late
              && retracted == old(retracted) + JobsOwning(old(owner), late)
              && Held() == old(Held()) - late
      ensures StoresTold(old(deadline), deadline, Held(), storeTtl, now)
      ensures OnlyForgets(old(Order()), Order())
    {
      hide StoresTold, ClaimsHold, IdsHold, ArmedHold, TiersExist, RequestsHold, CpuOffloadingManager.Valid,
          CachePolicy.Held, Finished, Late, JobsOwning, OverdueWith, TakenBackSoFar, CachePolicy.State,
          PolicyState.Listing, OnlyForgets;
      ForgettingAddsUp();
      LateTold(deadline, storeTtl, now);
      NoneTakenBack(Held(), deadline, owner, retracted, now);
      if storeTtl <= 0.0 {
        return;
      }
      ArmedKeys(deadline, owner, batches, storeTtl > 0.0);
      ghost var gone: set<Key> := {};
      var todo := Late(deadline, now);
      while todo != {}
        invariant Valid() && todo == Late(deadline, now)
        invariant OnlyForgets(old(Order()), Order())
        invariant TakenBackSoFar(old(Held()), old(deadline), old(owner), old(retracted), Held(), deadline, owner,
            retracted, gone, now)
        decreases todo
        modifies this`deadline, this`owner, this`retracted, this`batches
        modifies primary`numEvictable, primary`numWritePending, primary`freeList, primary.policy.Objects()
      {
        var key :| key in todo;
        OneTakenBack(old(Held()), old(deadline), old(owner), old(retracted), Held(), deadline, owner, retracted,
            gone, now, key);
        var group := TakeBackStoreOf(key, now);
        todo, gone := Late(deadline, now), gone + group;
      }
      AllTakenBack(old(Held()), old(deadline), old(owner), old(retracted), Held(), deadline, owner, retracted, gone, now);
    }

    method Listed(keys: set<Key>) returns (s: seq<Key>)
      ensures Elements(s) == keys && Distinct(s)
    {
      s := [];
      var rest := keys;
      while rest != {}
        invariant Elements(s) == keys - rest && rest <= keys && Distinct(s)
      {
        var k :| k in rest;
        assert k !in Elements(s) && Elements(s + [k]) == Elements(s) + {k};
        s, rest := s + [k], rest - {k};
      }
    }

    /** What a poll would do, told for each key. */
    lemma PollComesTo(reports: seq<Report>, now: real)
      requires Core() && ReportsFit(reports)
      ensures var late := if storeTtl > 0.0 then Late(deadline, now) else {};
              var table := Polled(Held(), jobs, startedAt, late, reports, promotionTtl, now);
              && PollTold(jobs, startedAt, reports, promotionTtl, Held(), failures,
                          PolledJobs(jobs, startedAt, reports, promotionTtl, now), table,
                          PolledFailures(failures, jobs, startedAt, reports, promotionTtl, failTtl, now), now, failTtl)
              && StoresTold(deadline, deadline - late, table, storeTtl, now)
    {
      hide PollTold, StoresTold, ReportsFit, ClaimsHold, IdsHold, ArmedHold, TiersExist, CpuOffloadingManager.Valid,
          CachePolicy.Held, Polled, PolledJobs, PolledFailures;
      ReportsAreFit(reports);
      PollTells(Held(), loads, jobs, waiting, batches, deadline, owner, storeTtl, startedAt, failures, reports,
                promotionTtl, failTtl, now);
      LateTold(deadline, storeTtl, now);
      PolledLate(Held(), jobs, startedAt, if storeTtl > 0.0 then Late(deadline, now) else {}, reports, promotionTtl, now);
    }

    /** Reports first, so that a job that has just ended is not taken back. */
    method ProcessFinishedJobs(reports: seq<Report>, now: real)
      requires Valid() && ReportsFit(reports)
      modifies this`jobs, this`startedAt, this`retracted, this`drained, this`failures
      modifies this`deadline, this`owner, this`batches
      modifies primary`numEvictable, primary`numWritePending, primary`freeList, primary.policy.Objects()
      ensures Valid()
      ensures var late := if storeTtl > 0.0 then Late(old(deadline), now) else {};
              && Held() == Polled(old(Held()), old(jobs), old(startedAt), late, reports, promotionTtl, now)
              && deadline == old(deadline) - late && owner == old(owner) - late
              && retracted == (old(retracted) - JobsOf(reports)) + (old(jobs).Keys - JobsOf(reports) - jobs.Keys)
                              + JobsOwning(old(owner), late)
      ensures jobs == PolledJobs(old(jobs), old(startedAt), reports, promotionTtl, now)
      ensures failures == PolledFailures(old(failures), old(jobs), old(startedAt), reports, promotionTtl, failTtl, now)
      ensures drained == old(drained) - JobsOf(reports)
      ensures PollTold(old(jobs), old(startedAt), reports, promotionTtl, old(Held()), old(failures), jobs, Held(), failures,
                       now, failTtl)
      ensures StoresTold(old(deadline), deadline, Held(), storeTtl, now)
      ensures OnlyForgets(old(Order()), Order())
    {
      hide PollTold, StoresTold, Reportable, ClaimsHold, IdsHold, ArmedHold, TiersExist, RequestsHold,
          CpuOffloadingManager.Valid, CachePolicy.Held, JobsOf, JobsOwning, Late, KeysOf, AllSuppressed,
          ReportsEffect, FailuresEffect, CachePolicy.State, PolicyState.Listing, OnlyForgets;
      ForgettingAddsUp();
      PollComesTo(reports, now);
      ConsumeReports(reports, now);
      ExpireStalePromotions(now);
      ExpireStaleStorePends(now);
    }

    /** The blocks, jobs and suppressed keys that a call works on, which polls
        first unless the step has been polled. */
    ghost function HeldOncePolled(reports: seq<Report>, now: real): Table
      reads this, primary.policy.Objects()
    {
      if processedThisStep then Held()
      else
        var late := if storeTtl > 0.0 then Late(deadline, now) else {};
        Polled(Held(), jobs, startedAt, late, reports, promotionTtl, now)
    }

    ghost function JobsOncePolled(reports: seq<Report>, now: real): Jobs
      reads this
    {
      if processedThisStep then jobs else PolledJobs(jobs, startedAt, reports, promotionTtl, now)
    }

    ghost function FailuresOncePolled(reports: seq<Report>, now: real): map<Key, real>
      reads this
    {
      if processedThisStep then failures
      else PolledFailures(failures, jobs, startedAt, reports, promotionTtl, failTtl, now)
    }

    /** At most one poll a step; later calls in the step do nothing. */
    method MaybeProcessFinishedJobs(reports: seq<Report>, now: real)
      requires Valid() && (!processedThisStep ==> ReportsFit(reports))
      modifies this`jobs, this`startedAt, this`retracted, this`drained, this`failures
      modifies this`deadline, this`owner, this`batches, this`processedThisStep
      modifies primary`numEvictable, primary`numWritePending, primary`freeList, primary.policy.Objects()
      ensures Valid() && processedThisStep
      ensures Held() == old(HeldOncePolled(reports, now)) && jobs == old(JobsOncePolled(reports, now))
      ensures failures == old(FailuresOncePolled(reports, now))
      ensures old(processedThisStep) ==>
                batches == old(batches) && retracted == old(retracted) && deadline == old(deadline)
      ensures !old(processedThisStep) ==>
        && PollTold(old(jobs), old(startedAt), reports, promotionTtl, old(Held()), old(failures), jobs, Held(), failures,
                    now, failTtl)
        && StoresTold(old(deadline), deadline, Held(), storeTtl, now)
      ensures OnlyForgets(old(Order()), Order())
    {
      hide PollTold, StoresTold, ClaimsHold, IdsHold, ArmedHold, TiersExist, RequestsHold, CpuOffloadingManager.Valid,
          CachePolicy.Held, CachePolicy.State, PolicyState.Listing, OnlyForgets;
      ForgettingAddsUp();
      if !processedThisStep {
        processedThisStep := true;
        ProcessFinishedJobs(reports, now);
      }
    }

    // ---- lookup and promotion ----

    /** Reserves a slot for `key` and queues its transfer, unless the tier is full. */
    method InitiatePromotion(tier: nat, key: Key, req: Req) returns (ok: bool)
      requires Core() && tier < numTiers && key !in Held()
      modifies this`waiting
      modifies primary`numEvictable, primary`numWritePending, primary`freeList, primary`numAllocated,
          primary.policy.Objects()
      ensures Core() && (ok <==> SlotFor(old(Held()), primary, old(Order())))
      ensures Promoted(ok, old(Held()), old(waiting), Held(), waiting, (tier, req), key,
                       |old(Held())| < primary.numBlocks)
    {
      hide ClaimsHold, IdsHold, ArmedHold, TiersExist, CpuOffloadingManager.Valid, CachePolicy.Held, Reserved, KeysAt,
          Keep, CachePolicy.State, RoomDecides, SlotFor, Promoted;
      ghost var before := Held();
      var slot, evicted := AskForSlot(key);
      ok := slot.Some?;
      if ok {
        var entry := Entry(waiting, (tier, req));
        var more := Pending(entry.keys + [key], entry.slots + [slot.value]);
        PromotionQueued(before, loads, jobs, waiting, batches, evicted, key, slot.value, (tier, req), more);
        PromotionIs(before, waiting, evicted, key, slot.value, (tier, req), |before| < primary.numBlocks);
        TiersWait(waiting, states, numTiers, tier, req, more);
        waiting := waiting[(tier, req) := more];
      } else {
        NotPromoted(before, waiting, (tier, req), key, |before| < primary.numBlocks);
      }
    }

    /** A slot for one block more; an idle one goes if no slot is free. */
    method AskForSlot(key: Key) returns (slot: Option<nat>, ghost evicted: seq<Key>)
      requires primary.Valid() && primary.counts.None? && key !in Held()
      modifies primary`numEvictable, primary`numWritePending, primary`freeList, primary`numAllocated,
          primary.policy.Objects()
      ensures primary.Valid() && (slot.Some? <==> SlotFor(old(Held()), primary, old(Order())))
      ensures slot.None? ==> Held() == old(Held())
      ensures slot.Some? ==>
        && |evicted| == (if |old(Held())| < primary.numBlocks then 0 else 1)
        && (forall k :: k in evicted ==> k in IdleKeys(old(Held())))
        && Held() == Reserved(old(Held()) - Elements(evicted), [key], [slot.value])
    {
      hide CpuOffloadingManager.Valid, CachePolicy.Held, CachePolicy.State, Reserved, KeysAt, RoomDecides, SlotFor,
          Distinct, Drop;
      ghost var before, order := Held(), Order();
      OneKey(key, before);
      TierFits(primary);
      var out := AskForRoom([key]);
      SlotDecides(before, key, primary, order, out);
      if out.None? {
        return None, [];
      }
      slot, evicted := Some(out.value.slots[0]), out.value.evicted;
      assert out.value.slots == [slot.value];
    }

    /** The tier, then the secondary tiers in order until one holds the block. */
    method LookupNow(key: Key, req: Req, asked: set<nat>, replies: seq<LookupResult>, now: real) returns (r: LookupResult)
      requires Core() && |replies| == numTiers
      modifies this`waiting, this`failures, primary`counts
      modifies primary`numEvictable, primary`numWritePending, primary`freeList, primary`numAllocated,
          primary.policy.Objects()
      ensures Core()
      ensures LookedUp(old(Held()), old(failures), old(waiting), SlotFor(old(Held()), primary, old(Order())),
                       |old(Held())| < primary.numBlocks, Held(), failures, waiting, key, req, asked, replies, r, now)
    {
      hide ClaimsHold, IdsHold, ArmedHold, TiersExist, CpuOffloadingManager.Valid, CachePolicy.Held, CachePolicy.State,
          SlotFor, LookedUp, Core, Held, Order;
      ghost var slot, free := SlotFor(Held(), primary, Order()), |Held()| < primary.numBlocks;
      r := LookupPrimary(key);
      if r == Miss {
        r := LookupBelow(key, req, asked, replies, now);
      } else {
        FoundInTier(Held(), failures, waiting, slot, free, key, req, asked, replies, r, now);
      }
    }

    /** The block is not in the tier. */
    method LookupBelow(key: Key, req: Req, asked: set<nat>, replies: seq<LookupResult>, now: real)
      returns (r: LookupResult)
      requires Core() && |replies| == numTiers && key !in Held()
      modifies this`waiting, this`failures
      modifies primary`numEvictable, primary`numWritePending, primary`freeList, primary`numAllocated,
          primary.policy.Objects()
      ensures Core()
      ensures LookedUp(old(Held()), old(failures), old(waiting), SlotFor(old(Held()), primary, old(Order())),
                       |old(Held())| < primary.numBlocks, Held(), failures, waiting, key, req, asked, replies, r, now)
    {
      hide ClaimsHold, IdsHold, ArmedHold, TiersExist, CpuOffloadingManager.Valid, CachePolicy.Held, CachePolicy.State,
          SlotFor, Promoted, FirstHolder, LookedUp, Core, Held, Order;
      ghost var table, slot, free := Held(), SlotFor(Held(), primary, Order()), |Held()| < primary.numBlocks;
      var holder, anyRetry := AskTiers(key, asked, replies, now);
      if holder.None? {
        r := if anyRetry then Retry else Miss;
        FoundNowhere(table, failures, waiting, slot, free, key, req, asked, replies, r, now);
        return;
      }
      var ok := PromoteFrom(holder.value, key, req);
      r := if ok then HitPending else Miss;
      FoundBelow(table, old(failures), old(waiting), slot, free, Held(), waiting, key, req, asked, replies, r, now,
                 holder.value);
    }

    /** A tier has the block, so a failure of long ago is forgotten. */
    method PromoteFrom(tier: nat, key: Key, req: Req) returns (ok: bool)
      requires Core() && tier < numTiers && key !in Held()
      modifies this`waiting, this`failures
      modifies primary`numEvictable, primary`numWritePending, primary`freeList, primary`numAllocated,
          primary.policy.Objects()
      ensures Core() && failures == old(failures) - {key} && (ok <==> SlotFor(old(Held()), primary, old(Order())))
      ensures Promoted(ok, old(Held()), old(waiting), Held(), waiting, (tier, req), key,
                       |old(Held())| < primary.numBlocks)
    {
      hide ClaimsHold, IdsHold, ArmedHold, TiersExist, CpuOffloadingManager.Valid, CachePolicy.Held, CachePolicy.State,
          SlotFor, Promoted;
      failures := failures - {key};
      ok := InitiatePromotion(tier, key, req);
    }

    method LookupPrimary(key: Key) returns (r: LookupResult)
      requires Core()
      modifies primary`counts
      ensures Core() && Held() == old(Held()) && Order() == old(Order())
      ensures r == if key !in Held() then Miss else if Held()[key].refCnt >= 0 then Hit else HitPending
    {
      hide ClaimsHold, IdsHold, ArmedHold, TiersExist, CpuOffloadingManager.Valid, CachePolicy.Held, CachePolicy.State;
      CountsAtLeast(primary);
      r := primary.Lookup(key);
    }

    /** Asks one tier after the other. While a promotion of `key` failed lately,
        no tier counts as holding it. */
    method AskTiers(key: Key, asked: set<nat>, replies: seq<LookupResult>, now: real)
      returns (holder: Option<nat>, anyRetry: bool)
      requires |replies| == numTiers
      ensures holder.Some? ==> FirstHolder(replies, asked, holder.value) && (key in failures ==> failures[key] <= now)
      ensures holder.Some? ==> holder.value < numTiers
      ensures holder.None? ==>
        && ((key in failures && failures[key] > now) || forall i: nat :: !FirstHolder(replies, asked, i))
        && (anyRetry <==> exists i :: 0 <= i < |replies| && i in asked && replies[i] == Retry)
    {
      anyRetry := false;
      for i := 0 to numTiers
        invariant Silenced(failures, key, now) || forall j: nat :: j < i && j in asked ==> replies[j] != Hit
        invariant anyRetry <==> exists j :: 0 <= j < i && j in asked && replies[j] == Retry
      {
        if i in asked && replies[i] == Hit && !Silenced(failures, key, now) {
          return Some(i), anyRetry;
        }
        anyRetry := anyRetry || (i in asked && replies[i] == Retry);
      }
      holder := None;
    }

    /** The answer describes the tier as it is when the call returns: reported
        jobs are taken into account, and a new promotion shows as pending. */
    method Lookup(key: Key, req: Req, exclude: Option<nat>, allowed: set<nat>, replies: seq<LookupResult>,
                  reports: seq<Report>, now: real) returns (r: LookupResult)
      requires Valid() && (!processedThisStep ==> ReportsFit(reports)) && |replies| == numTiers
      modifies this`jobs, this`startedAt, this`retracted, this`drained, this`failures, this`waiting
      modifies this`deadline, this`owner, this`batches, this`processedThisStep, primary`counts
      modifies primary`numEvictable, primary`numWritePending, primary`freeList, primary`numAllocated,
          primary.policy.Objects()
      ensures Valid() && processedThisStep
      ensures var asked := if exclude.Some? then allowed - {exclude.value} else allowed;
              var table := old(HeldOncePolled(reports, now));
              LookedUp(table, old(FailuresOncePolled(reports, now)), old(waiting),
                       SlotFor(table, primary, old(Order())), |table| < primary.numBlocks, Held(), failures, waiting,
                       key, req, asked, replies, r, now)
      ensures jobs == old(JobsOncePolled(reports, now))
    {
      hide ClaimsHold, IdsHold, ArmedHold, TiersExist, RequestsHold, CpuOffloadingManager.Valid, CachePolicy.Held,
          CachePolicy.State, ReportsFit, HeldOncePolled, FailuresOncePolled, JobsOncePolled, PollTold, StoresTold,
          LookedUp, SlotFor, OnlyForgets, ListsFit, ListsApart;
      ghost var before := Order();
      ListsAre(primary);
      MaybeProcessFinishedJobs(reports, now);
      ListsAre(primary);
      SlotSince(Held(), primary, before, Order());
      r := LookupNow(key, req, if exclude.Some? then allowed - {exclude.value} else allowed, replies, now);
    }

    /** A job under way, with an id that was never used before. */
    method RegisterJob(job: Job, now: real) returns (id: nat)
      modifies this`jobs, this`startedAt, this`jobIdCounter
      ensures id == old(jobIdCounter) && jobIdCounter == id + 1
      ensures jobs == old(jobs)[id := job] && startedAt == old(startedAt)[id := now]
    {
      id := jobIdCounter;
      jobIdCounter := jobIdCounter + 1;
      jobs, startedAt := jobs[id := job], startedAt[id := now];
    }

    method SubmitPromotion(p: (nat, Req), now: real)
      requires Valid() && p in waiting
      modifies this`jobs, this`startedAt, this`jobIdCounter, this`waiting, this`trace
      ensures Valid() && waiting == old(waiting) - {p} && trace == old(trace) + [SubmitLoad(p.0, p.1)]
      ensures old(jobIdCounter) !in old(jobs)
      ensures jobs == old(jobs)[old(jobIdCounter) := PromotionOf(p, old(waiting)[p])]
      ensures var (tier, req) := p;
              jobs[old(jobIdCounter)] == Job(old(waiting)[p].keys, old(waiting)[p].slots, true, req, tier)
      ensures startedAt == old(startedAt)[old(jobIdCounter) := now]
    {
      hide ClaimsHold, IdsHold, ArmedHold, TiersExist, RequestsHold, CpuOffloadingManager.Valid, CachePolicy.Held;
      var job := PromotionOf(p, waiting[p]);
      WaitingTier(waiting, states, numTiers, p);
      IdsNewJob(jobIdCounter, jobs, startedAt, retracted, drained, batches, nextBatch, numTiers, job, now);
      PromotionSubmitted(Held(), loads, jobs, waiting, batches, p, jobIdCounter, job);
      LoadSubmitted(states, batches, known, over, trace, {}, p.0, p.1);
      var id := RegisterJob(job, now);
      waiting := waiting - {p};
      trace := trace + [SubmitLoad(p.0, p.1)];
    }

    /** Every queued promotion becomes one job, and the queue is empty. */
    method FlushPendingPromotions(now: real)
      requires Valid()
      modifies this`jobs, this`startedAt, this`jobIdCounter, this`waiting, this`trace
      ensures Valid() && waiting == map[]
      ensures jobs.Keys >= old(jobs).Keys && |jobs| == |old(jobs)| + |old(waiting)|
      ensures forall id :: id in old(jobs) ==> jobs[id] == old(jobs)[id]
      ensures forall p :: p in old(waiting) ==> HasJob(jobs, PromotionOf(p, old(waiting)[p]))
      ensures StartedNow(old(jobs), old(startedAt), jobs, startedAt, now)
    {
      hide ClaimsHold, IdsHold, ArmedHold, TiersExist, RequestsHold, CpuOffloadingManager.Valid, CachePolicy.Held,
          PromotionOf, SubmittedSoFar, HasJob, StartedNow;
      NoneSubmitted(waiting, jobs);
      NoneStarted(jobs, startedAt, now);
      while waiting != map[]
        invariant Valid() && SubmittedSoFar(old(waiting), waiting, old(jobs), jobs)
        invariant StartedNow(old(jobs), old(startedAt), jobs, startedAt, now)
        decreases |waiting|
      {
        var p :| p in waiting;
        OneSubmitted(old(waiting), waiting, old(jobs), jobs, p, jobIdCounter);
        OneStarted(old(jobs), old(startedAt), jobs, startedAt, now, jobIdCounter, PromotionOf(p, waiting[p]));
        SubmitPromotion(p, now);
      }
      AllSubmitted(old(waiting), old(jobs), jobs);
    }

    /** The end of a scheduler step, after the last poll of the step and after
        the tiers have called back. */
    method ScheduleEndFlush(now: real)
      requires Valid()
      modifies this`jobs, this`startedAt, this`jobIdCounter, this`waiting, this`trace, this`processedThisStep
      ensures Valid() && waiting == map[] && !processedThisStep
      ensures jobs.Keys >= old(jobs).Keys && |jobs| == |old(jobs)| + |old(waiting)|
      ensures forall id :: id in old(jobs) ==> jobs[id] == old(jobs)[id]
      ensures forall p :: p in old(waiting) ==> HasJob(jobs, PromotionOf(p, old(waiting)[p]))
      ensures StartedNow(old(jobs), old(startedAt), jobs, startedAt, now)
    {
      hide ClaimsHold, IdsHold, ArmedHold, TiersExist, RequestsHold, CpuOffloadingManager.Valid, CachePolicy.Held,
          PromotionOf, StartedNow;
      processedThisStep := false;
      FlushPendingPromotions(now);
    }

    /** `on_schedule_end`: the last poll of the step, unless it has been polled,
        then the flush. Blocks and jobs are as the poll leaves them, and every
        promotion that waited is a job of its own. What tiers ask for between the
        two are calls of the other operations. */
    method OnScheduleEnd(reports: seq<Report>, now: real)
      requires Valid() && (!processedThisStep ==> ReportsFit(reports))
      modifies this`jobs, this`startedAt, this`retracted, this`drained, this`failures
      modifies this`deadline, this`owner, this`batches, this`processedThisStep
      modifies this`jobIdCounter, this`waiting, this`trace
      modifies primary`numEvictable, primary`numWritePending, primary`freeList, primary.policy.Objects()
      ensures Valid() && waiting == map[] && !processedThisStep
      ensures Held() == old(HeldOncePolled(reports, now)) && failures == old(FailuresOncePolled(reports, now))
      ensures var open := old(JobsOncePolled(reports, now));
              && |jobs| == |open| + |old(waiting)| && jobs.Keys >= open.Keys
              && (forall id :: id in open ==> jobs[id] == open[id])
              && (forall id :: id in jobs && id !in open ==> id in startedAt && startedAt[id] == now)
              && forall p :: p in old(waiting) ==> HasJob(jobs, PromotionOf(p, old(waiting)[p]))
      ensures !old(processedThisStep) ==>
        && PollTold(old(jobs), old(startedAt), reports, promotionTtl, old(Held()), old(failures),
                    old(JobsOncePolled(reports, now)), Held(), failures, now, failTtl)
        && StoresTold(old(deadline), deadline, Held(), storeTtl, now)
    {
      hide PollTold, StoresTold, HeldOncePolled, JobsOncePolled, FailuresOncePolled, ClaimsHold, IdsHold, ArmedHold,
          TiersExist, RequestsHold, CpuOffloadingManager.Valid, CachePolicy.Held, PromotionOf, ReportsFit, HasJob;
      MaybeProcessFinishedJobs(reports, now);
      ScheduleEndFlush(now);
    }

    // ---- loads to the GPU ----

    method PrepareLoad(keys: seq<Key>) returns (slots: seq<nat>)
      requires Valid() && Distinct(keys) && forall k :: k in keys ==> k in Held() && Held()[k].refCnt >= 0
      modifies this`loads, primary`numEvictable, primary`numWritePending, primary.policy.Objects()
      ensures Valid() && Held() == Pinned(old(Held()), keys) && loads == old(loads) + multiset(keys)
      ensures |slots| == |keys| && forall i :: 0 <= i < |keys| ==> slots[i] == Held()[keys[i]].id
    {
      hide ClaimsHold, IdsHold, ArmedHold, TiersExist, RequestsHold, CpuOffloadingManager.Valid, CachePolicy.Held,
          Pinned, Distinct;
      LoadStarts(Held(), loads, jobs, waiting, batches, keys);
      slots := primary.PrepareLoad(keys);
      loads := loads + multiset(keys);
    }

    method CompleteLoad(keys: seq<Key>)
      requires Valid() && Distinct(keys) && multiset(keys) <= loads
      modifies this`loads, primary`numEvictable, primary`numWritePending, primary.policy.Objects()
      ensures Valid() && loads == old(loads) - multiset(keys)
      ensures forall k :: k in keys ==> k in old(Held())
      ensures Held() == Unpinned(old(Held()), keys)
    {
      hide ClaimsHold, IdsHold, ArmedHold, TiersExist, RequestsHold, CpuOffloadingManager.Valid, CachePolicy.Held,
          Unpinned, Distinct;
      LoadEnds(Held(), loads, jobs, waiting, batches, keys);
      primary.CompleteLoad(keys);
      loads := loads - multiset(keys);
    }

    method Touch(keys: seq<Key>)
      requires Valid()
      modifies primary.policy.Objects()
      ensures Valid() && Held() == old(Held()) && primary.policy.State() == old(primary.policy.AfterTouch(keys))
    {
      hide ClaimsHold, IdsHold, ArmedHold, TiersExist, RequestsHold, CpuOffloadingManager.Valid, CachePolicy.Held;
      primary.Touch(keys);
    }

    // ---- stores to secondary tiers ----

    /** Pins readable blocks for one transfer to a tier. */
    method CreateStoreJob(keys: seq<Key>, req: Req, tier: nat, now: real) returns (id: nat)
      requires Core() && tier < numTiers && Distinct(keys)
      requires forall k :: k in keys ==> k in Held() && Held()[k].refCnt >= 0
      modifies this`jobs, this`startedAt, this`jobIdCounter
      modifies primary`numEvictable, primary`numWritePending, primary.policy.Objects()
      ensures Core() && Held() == Pinned(old(Held()), keys)
      ensures id == old(jobIdCounter) && id !in old(jobs)
      ensures exists slots :: Owns(Held(), keys, slots) && jobs == old(jobs)[id := Job(keys, slots, false, req, tier)]
    {
      hide ClaimsHold, IdsHold, ArmedHold, TiersExist, RequestsHold, CpuOffloadingManager.Valid, CachePolicy.Held,
          Pinned, Distinct;
      ghost var before := Held();
      var slots := primary.PrepareLoad(keys);
      var job := Job(keys, slots, false, req, tier);
      PinnedSlots(before, keys, slots);
      IdsNewJob(jobIdCounter, jobs, startedAt, retracted, drained, batches, nextBatch, numTiers, job, now);
      CascadeStarts(before, loads, jobs, waiting, batches, jobIdCounter, job);
      id := RegisterJob(job, now);
    }

    method SubmitStoreTo(keys: seq<Key>, req: Req, tier: nat, now: real)
      requires Valid() && tier < numTiers && Distinct(keys) && req in states
      requires forall k :: k in keys ==> k in Held() && Held()[k].refCnt >= 0
      modifies this`jobs, this`startedAt, this`jobIdCounter, this`trace
      modifies primary`numEvictable, primary`numWritePending, primary.policy.Objects()
      ensures Valid() && Held() == Pinned(old(Held()), keys) && trace == old(trace) + [SubmitStore(tier, req)]
      ensures old(jobIdCounter) !in old(jobs) && old(jobIdCounter) in jobs
      ensures var job := jobs[old(jobIdCounter)];
              IsStoreToOne(job, keys, req, {tier}) && jobs == old(jobs)[old(jobIdCounter) := job]
    {
      hide ClaimsHold, IdsHold, ArmedHold, TiersExist, RequestsHold, CpuOffloadingManager.Valid, CachePolicy.Held,
          Pinned, Distinct, Owns;
      var id := CreateStoreJob(keys, req, tier, now);
      StoreSubmitted(states, batches, known, over, trace, {}, tier, req);
      trace := trace + [SubmitStore(tier, req)];
    }

    /** A block that has arrived from the GPU goes to every secondary tier. */
    method CascadeToAll(keys: seq<Key>, req: Req, now: real)
      requires Valid() && Distinct(keys) && req in states
      requires forall k :: k in keys ==> k in Held() && Held()[k].refCnt >= 0
      modifies this`jobs, this`startedAt, this`jobIdCounter, this`trace
      modifies primary`numEvictable, primary`numWritePending, primary.policy.Objects()
      ensures Valid()
      ensures SentToFirst(old(Held()), Held(), keys, old(trace), trace, old(jobs), jobs, req, numTiers)
    {
      hide ClaimsHold, IdsHold, ArmedHold, TiersExist, RequestsHold, CpuOffloadingManager.Valid, CachePolicy.Held,
          Pinned, Distinct, StoreJobsAdded, IsStoreToOne, SentToFirst;
      var tier := 0;
      SentToNone(Held(), keys, trace, jobs, req);
      while tier < numTiers
        invariant 0 <= tier <= numTiers && Valid()
        invariant SentToFirst(old(Held()), Held(), keys, old(trace), trace, old(jobs), jobs, req, tier)
        modifies this`jobs, this`startedAt, this`jobIdCounter, this`trace
        modifies primary`numEvictable, primary`numWritePending, primary.policy.Objects()
      {
        SentToNext(old(Held()), Held(), keys, old(trace), trace, old(jobs), jobs, req, tier, jobIdCounter);
        SubmitStoreTo(keys, req, tier, now);
        tier := tier + 1;
      }
    }

    /** Blocks the tier already holds go to the tiers that want whole requests. */
    method CascadeExisting(keys: seq<Key>, req: Req, now: real)
      requires Valid() && Distinct(keys) && req in states
      modifies this`jobs, this`startedAt, this`jobIdCounter, this`trace
      modifies primary`numEvictable, primary`numWritePending, primary.policy.Objects(), primary`counts
      ensures Valid()
      ensures var ready := Keep(keys, ReadableKeys(old(Held())));
              var tiers := if ready == [] then {} else states[req].requestLevel;
              && Held() == PinnedBy(old(Held()), ready, |tiers|) && OnlyStoresAdded(old(trace), trace, req, tiers)
              && StoreJobsAdded(old(jobs), jobs, ready, req, tiers)
    {
      hide ClaimsHold, IdsHold, ArmedHold, TiersExist, RequestsHold, CpuOffloadingManager.Valid, CachePolicy.Held,
          Distinct, Keep, OnlyStoresAdded, StoreJobsAdded;
      var ready := ReadyKeys(keys);
      KeepDistinct(keys, ReadableKeys(Held()));
      LevelsExist(waiting, states, numTiers, req);
      CascadeTo(ready, if ready == [] then {} else states[req].requestLevel, req, now);
    }

    method CascadeTo(keys: seq<Key>, tiers: set<nat>, req: Req, now: real)
      requires Valid() && Distinct(keys) && req in states && forall t :: t in tiers ==> t < numTiers
      requires forall k :: k in keys ==> k in Held() && Held()[k].refCnt >= 0
      modifies this`jobs, this`startedAt, this`jobIdCounter, this`trace
      modifies primary`numEvictable, primary`numWritePending, primary.policy.Objects()
      ensures Valid() && Held() == PinnedBy(old(Held()), keys, |tiers|)
      ensures OnlyStoresAdded(old(trace), trace, req, tiers) && StoreJobsAdded(old(jobs), jobs, keys, req, tiers)
    {
      hide ClaimsHold, IdsHold, ArmedHold, TiersExist, RequestsHold, CpuOffloadingManager.Valid, CachePolicy.Held,
          Pinned, Distinct, OnlyStoresAdded, SentTo, StoreJobsAdded;
      var todo := tiers;
      NoJobAdded(jobs, keys, req);
      NothingSent(Held(), keys, trace, req, tiers);
      while todo != {}
        invariant Valid() && todo <= tiers
        invariant SentTo(old(Held()), Held(), keys, old(trace), trace, req, tiers - todo)
        invariant StoreJobsAdded(old(jobs), jobs, keys, req, tiers - todo)
        decreases todo
        modifies this`jobs, this`startedAt, this`jobIdCounter, this`trace
        modifies primary`numEvictable, primary`numWritePending, primary.policy.Objects()
      {
        var tier :| tier in todo;
        MoreSent(old(Held()), Held(), keys, old(trace), trace, req, tiers, todo, tier);
        ghost var id, before := jobIdCounter, jobs;
        SubmitStoreTo(keys, req, tier, now);
        StoreJobAdded(old(jobs), before, keys, req, tiers - todo, id, jobs[id]);
        assert tiers - todo + {tier} == tiers - (todo - {tier});
        todo := todo - {tier};
      }
      assert tiers - todo == tiers;
      AllSent(old(Held()), Held(), keys, old(trace), trace, req, tiers);
    }

    method ReadyKeys(keys: seq<Key>) returns (ready: seq<Key>)
      requires primary.Valid()
      modifies primary`counts
      ensures primary.Valid() && ready == Keep(keys, ReadableKeys(Held())) && (old(primary.counts).None? ==>
          primary.counts.None?)
    {
      hide ClaimsHold, IdsHold, ArmedHold, TiersExist, RequestsHold, CpuOffloadingManager.Valid, CachePolicy.Held;
      ready := [];
      var i := 0;
      while i < |keys|
        invariant 0 <= i <= |keys| && primary.Valid() && Held() == old(Held())
        invariant ready == Keep(keys[..i], ReadableKeys(Held()))
        invariant old(primary.counts).None? ==> primary.counts.None?
      {
        CountsAtLeast(primary);
        KeepStep(keys, i, ReadableKeys(Held()));
        var r := primary.Lookup(keys[i]);
        if r == Hit {
          ready := ready + [keys[i]];
        }
        i := i + 1;
      }
      assert keys[..i] == keys;
    }

    // ---- stores from the GPU ----

    /** The tier evicts idle blocks for the keys it does not hold, or refuses. */
    method AskForRoom(keys: seq<Key>) returns (r: Option<StoreOutput>)
      requires primary.Valid() && primary.counts.None? && Distinct(keys)
      modifies primary`numEvictable, primary`numWritePending, primary`freeList, primary`numAllocated,
          primary.policy.Objects()
      ensures primary.Valid() && RoomDecides(old(Held()), keys, primary, old(Order()), r)
      ensures r.None? ==> Held() == old(Held())
      ensures r.Some? ==>
        && StoreOutputFits(old(Held()), keys, r.value) && Distinct(r.value.keysToStore)
        && Held() == Reserved(old(Held()) - Elements(r.value.evicted), r.value.keysToStore, r.value.slots)
        && (r.value.keysToStore == [] ==> Held() == old(Held()))
    {
      hide CpuOffloadingManager.Valid, CachePolicy.Held, Reserved, Distinct, Keep, Drop, KeysAt, Elements,
          CachePolicy.Refuses, CachePolicy.Chooses, CachePolicy.State, WouldEvict, RoomDecides;
      AllAdmitted(keys);
      SlotsLeft(primary);
      ghost var before, order, short := Held(), Order(), |Drop(keys, Held().Keys)| - primary.Free();
      RoomIs(primary, keys, short);
      ghost var refuses := short > 0 && primary.policy.Refuses(short, Elements(keys));
      r := primary.PrepareStore(keys, false);
      RoomDecided(before, keys, primary, order, short, refuses, r);
      if r.Some? && r.value.keysToStore == [] {
        NothingReserved(before, r.value);
      }
    }

    /** Reserves slots for the blocks the tier does not hold; the request now
        waits for them, and with deadlines on, their keys are armed. */
    method ReserveForStore(keys: seq<Key>, req: Req, now: real) returns (r: Option<StoreOutput>)
      requires Valid() && Distinct(keys) && req in states
      modifies this`states, this`batches, this`nextBatch, this`jobIdCounter, this`deadline, this`owner
      modifies primary`numEvictable, primary`numWritePending, primary`freeList, primary`numAllocated,
          primary.policy.Objects()
      ensures Valid()
      ensures r.None? || r.value.keysToStore == [] ==>
                states == old(states) && batches == old(batches) && nextBatch == old(nextBatch)
      ensures r.None? ==> Held() == old(Held())
      ensures r.Some? ==>
        var out := r.value;
        && StoreOutputFits(old(Held()), keys, out)
        && Held() == Reserved(old(Held()) - Elements(out.evicted), out.keysToStore, out.slots)
        && (out.keysToStore != [] ==>
             && states == OneMorePending(old(states), req)
             && batches == old(batches)[old(nextBatch) := StoreBatch(req, out.keysToStore, old(jobIdCounter), now,
                 storeTtl)]
             && old(nextBatch) !in old(batches) && nextBatch == old(nextBatch) + 1)
      ensures RoomDecides(old(Held()), keys, primary, old(Order()), r)
      ensures r.Some? ==> ArmedUntil(r.value.keysToStore, now)
    {
      hide ClaimsHold, IdsHold, ArmedHold, TiersExist, RequestsHold, CpuOffloadingManager.Valid, CachePolicy.Held,
          Reserved, Distinct, Keep, Drop, KeysAt, RoomDecides;
      ghost var before := Held();
      r := AskForRoom(keys);
      if r.Some? && r.value.keysToStore != [] {
        StoreBegins(before, loads, jobs, waiting, batches, r.value, keys, nextBatch,
                    StoreBatch(req, r.value.keysToStore, jobIdCounter, now, storeTtl));
        RegisterStore(before, r.value.keysToStore, req, now);
      }
    }

    /** A store prepared now may take as long as the deadlines say, if any. */
    ghost predicate ArmedUntil(keys: seq<Key>, now: real)
      reads this`deadline
    {
      storeTtl > 0.0 ==> forall k :: k in keys ==> k in deadline && deadline[k] == now + storeTtl
    }

    method RegisterStore(ghost before: Table, keys: seq<Key>, req: Req, now: real)
      requires IdsHold(jobIdCounter, jobs, startedAt, retracted, drained, batches, nextBatch, numTiers)
      requires ArmedHold(deadline, owner, batches, storeTtl > 0.0) && TiersExist(waiting, states, numTiers)
      requires Log({}) && req in states && forall k :: k in keys ==> k !in before
      requires forall b, k :: b in batches && batches[b].live && k in batches[b].keys ==> k in before
      modifies this`states, this`batches, this`nextBatch, this`jobIdCounter, this`deadline, this`owner
      ensures IdsHold(jobIdCounter, jobs, startedAt, retracted, drained, batches, nextBatch, numTiers)
      ensures ArmedHold(deadline, owner, batches, storeTtl > 0.0) && TiersExist(waiting, states, numTiers)
      ensures Log({}) && states == OneMorePending(old(states), req)
      ensures old(nextBatch) !in old(batches) && nextBatch == old(nextBatch) + 1
      ensures batches == old(batches)[old(nextBatch) := StoreBatch(req, keys, old(jobIdCounter), now, storeTtl)]
      ensures ArmedUntil(keys, now)
    {
      hide IdsHold, ArmedHold, TiersExist, RequestsHold, Put;
      ghost var batch := StoreBatch(req, keys, jobIdCounter, now, storeTtl);
      var counter := if storeTtl > 0.0 then jobIdCounter + 1 else jobIdCounter;
      IdsNewBatch(jobIdCounter, jobs, startedAt, retracted, drained, batches, nextBatch, numTiers, batch, counter);
      StorePrepared(states, batches, known, over, trace, nextBatch, batch);
      PendingTiers(waiting, states, numTiers, req);
      BatchJobs(jobIdCounter, jobs, startedAt, retracted, drained, batches, nextBatch, numTiers);
      ArmedOrNot(deadline, owner, batches, storeTtl > 0.0, nextBatch, batch, jobIdCounter);
      states := OneMorePending(states, req);
      if storeTtl > 0.0 {
        deadline, owner := Put(deadline, keys, now + storeTtl), Put(owner, keys, (req, jobIdCounter));
      }
      jobIdCounter := counter;
      batches, nextBatch := batches[nextBatch := batch], nextBatch + 1;
    }

    /** Reserves, and hands blocks that are already there to the tiers that want
        whole requests. */
    method StoreNow(keys: seq<Key>, req: Req, now: real, ghost before: PolicyState) returns (r: Option<StoreOutput>)
      requires Valid() && Distinct(keys) && req in states
      requires OnlyForgets(before, Order()) && ListsApart(before) && (before.ArcState? <==> primary.policy.ArcPolicy?)
      modifies this`jobs, this`startedAt, this`states, this`batches, this`nextBatch, this`jobIdCounter, this`trace
      modifies this`deadline, this`owner, primary`counts
      modifies primary`numEvictable, primary`numWritePending, primary`freeList, primary`numAllocated,
          primary.policy.Objects()
      ensures Valid()
      ensures Stored(old(Held()), old(jobs), old(trace), Held(), jobs, trace, keys, req, old(states)[req].requestLevel, r)
      ensures RoomDecides(old(Held()), keys, primary, before, r)
      ensures r.None? || r.value.keysToStore == [] ==> states == old(states) && nextBatch == old(nextBatch)
      ensures r.Some? && r.value.keysToStore != [] ==>
        && states == OneMorePending(old(states), req) && old(nextBatch) in batches
        && batches[old(nextBatch)] == StoreBatch(req, r.value.keysToStore, old(jobIdCounter), now, storeTtl)
      ensures r.Some? ==> ArmedUntil(r.value.keysToStore, now)
    {
      hide ArmedUntil, ClaimsHold, IdsHold, ArmedHold, TiersExist, RequestsHold, CpuOffloadingManager.Valid,
          CachePolicy.Held, Reserved, Distinct, Keep, Drop, KeysAt, OnlyStoresAdded, StoreJobsAdded, PinnedBy,
          ReadableKeys, RoomDecides, OnlyForgets, ListsFit, ListsApart, CachePolicy.State;
      ListsAre(primary);
      r := ReserveForStore(keys, req, now);
      RoomSince(old(Held()), keys, primary, before, old(Order()), r);
      if r.Some? {
        var already := Rest(keys, r.value.keysToStore);
        SameReady(old(Held()), keys, r.value);
        CascadeExisting(already, req, now);
      }
    }

    /** Polls first, so that blocks whose transfers have ended may be evicted. */
    method PrepareStore(keys: seq<Key>, req: Req, reports: seq<Report>, now: real) returns (r: Option<StoreOutput>)
      requires Valid() && (!processedThisStep ==> ReportsFit(reports)) && Distinct(keys) && req in states
      modifies this`jobs, this`startedAt, this`retracted, this`drained, this`failures
      modifies this`deadline, this`owner, this`batches, this`processedThisStep
      modifies this`states, this`nextBatch, this`jobIdCounter, this`trace, primary`counts
      modifies primary`numEvictable, primary`numWritePending, primary`freeList, primary`numAllocated,
          primary.policy.Objects()
      ensures Valid() && processedThisStep
      ensures Stored(old(HeldOncePolled(reports, now)), old(JobsOncePolled(reports, now)), old(trace), Held(), jobs, trace,
                     keys, req, old(states)[req].requestLevel, r)
      ensures RoomDecides(old(HeldOncePolled(reports, now)), keys, primary, old(Order()), r)
      ensures r.None? || r.value.keysToStore == [] ==> states == old(states) && nextBatch == old(nextBatch)
      ensures r.Some? && r.value.keysToStore != [] ==>
        && states == OneMorePending(old(states), req) && old(nextBatch) in batches
        && batches[old(nextBatch)] == StoreBatch(req, r.value.keysToStore, old(jobIdCounter), now, storeTtl)
      ensures r.Some? ==> ArmedUntil(r.value.keysToStore, now)
    {
      hide ArmedUntil, ClaimsHold, IdsHold, ArmedHold, TiersExist, RequestsHold, CpuOffloadingManager.Valid,
          CachePolicy.Held, CachePolicy.State, Distinct, ReportsFit, Stored, RoomDecides, OnlyForgets, ListsFit,
          ListsApart, HeldOncePolled, JobsOncePolled, FailuresOncePolled, PollTold, StoresTold;
      ghost var before := Order();
      ListsAre(primary);
      MaybeProcessFinishedJobs(reports, now);
      r := StoreNow(keys, req, now, before);
    }

    method Rest(keys: seq<Key>, stored: seq<Key>) returns (already: seq<Key>)
      requires Distinct(keys)
      ensures already == Drop(keys, Elements(stored)) && Distinct(already)
    {
      DropDistinct(keys, Elements(stored));
      already := Drop(keys, set k | k in stored);
      assert (set k | k in stored) == Elements(stored);
    }

    /** The transfer of a store ended: on success every secondary tier gets the
        blocks. The request waits for one store less and may be over. A store
        that was taken back before completes like this too, as long as none of
        its keys is being written again. */
    method CompleteStore(keys: seq<Key>, req: Req, success: bool, now: real, ghost b: nat)
      requires Valid() && b in batches && batches[b].req == req && Distinct(keys)
      requires Elements(keys) == Elements(batches[b].keys) && MayComplete(Held(), batches[b], keys, success)
      modifies this`jobs, this`startedAt, this`jobIdCounter, this`trace, this`states, this`batches, this`deadline,
          this`owner
      modifies primary`numEvictable, primary`numWritePending, primary`freeList, primary.policy.Objects()
      ensures Valid() && batches == old(batches) - {b}
      ensures old(batches)[b].live ==> forall k :: k in keys ==> k in old(Held()) && old(Held())[k].refCnt == -1
      ensures !old(batches)[b].live ==> Finished(old(Held()), keys, success) == old(Held())
      ensures CascadedStore(old(Held()), Held(), keys, old(jobs), jobs, req, success, numTiers)
      ensures req in old(states) &&
              var after := old(states)[req].(pendingStores := old(states)[req].pendingStores - 1);
              var cascades := if success then StoreEvents(numTiers, req) else [];
              if after.isFinished && after.pendingStores == 0
              then states == old(states) - {req} && trace == old(trace) + cascades + FinishEvents(numTiers, req, None)
              else states == old(states)[req := after] && trace == old(trace) + cascades
    {
      hide ClaimsHold, IdsHold, ArmedHold, TiersExist, RequestsHold, CpuOffloadingManager.Valid, CachePolicy.Held,
          CascadedStore, FinishEvents, StoreEvents, MayComplete, Finished, Distinct, Elements;
      EndAndCascade(keys, req, success, now, b);
      assert old(batches)[b := old(batches)[b].(live := false)] - {b} == old(batches) - {b};
      StoreIsOver(req, b);
    }

    /** Its writes end, and on success every tier gets the blocks. */
    method EndAndCascade(keys: seq<Key>, req: Req, success: bool, now: real, ghost b: nat)
      requires Valid() && b in batches && batches[b].req == req && Distinct(keys)
      requires Elements(keys) == Elements(batches[b].keys) && MayComplete(Held(), batches[b], keys, success)
      modifies this`jobs, this`startedAt, this`jobIdCounter, this`trace, this`batches, this`deadline, this`owner
      modifies primary`numEvictable, primary`numWritePending, primary`freeList, primary.policy.Objects()
      ensures Valid() && req in states && batches == old(batches)[b := old(batches)[b].(live := false)]
      ensures old(batches)[b].live ==> forall k :: k in keys ==> k in old(Held()) && old(Held())[k].refCnt == -1
      ensures !old(batches)[b].live ==> Finished(old(Held()), keys, success) == old(Held())
      ensures CascadedStore(old(Held()), Held(), keys, old(jobs), jobs, req, success, numTiers)
      ensures trace == old(trace) + if success then StoreEvents(numTiers, req) else []
    {
      hide ClaimsHold, IdsHold, ArmedHold, TiersExist, RequestsHold, CpuOffloadingManager.Valid, CachePolicy.Held,
          Pinned, Distinct, Finished, FinishEvents, StoreEvents, StoreJobsAdded, PinnedBy, Elements;
      BatchReq(states, batches, known, over, trace, b);
      ghost var before, batch := Held(), batches[b];
      CountsAtLeast(primary);
      assert primary.Held() == before;
      assert forall k :: k in before ==> before[k].refCnt >= -1;
      EndStore(keys, success, b);
      if success {
        CompletedReady(before, batch, keys);
        CascadeToAll(keys, req, now);
      }
    }

    method StoreIsOver(req: Req, ghost b: nat)
      requires Valid() && b in batches && !batches[b].live && batches[b].req == req
      modifies this`states, this`batches, this`trace
      ensures Valid() && batches == old(batches) - {b}
      ensures req in old(states) &&
              var after := old(states)[req].(pendingStores := old(states)[req].pendingStores - 1);
              if after.isFinished && after.pendingStores == 0
              then states == old(states) - {req} && trace == old(trace) + FinishEvents(numTiers, req, None)
              else states == old(states)[req := after] && trace == old(trace)
    {
      hide ClaimsHold, IdsHold, ArmedHold, TiersExist, RequestsHold, CpuOffloadingManager.Valid, CachePolicy.Held,
          FinishEvents;
      BatchReq(states, batches, known, over, trace, b);
      StoreCompleted(states, batches, known, over, trace, b);
      DeadStoreLeaves(Held(), loads, jobs, waiting, batches, b);
      DeadUnarmed(deadline, owner, batches, storeTtl > 0.0, b);
      IdsDeadBatch(jobIdCounter, jobs, startedAt, retracted, drained, batches, nextBatch, numTiers, b);
      PendingTiers(waiting, states, numTiers, req);
      states := states[req := states[req].(pendingStores := states[req].pendingStores - 1)];
      batches := batches - {b};
      MaybeFinalize(req, None);
    }

    // ---- requests ----

    /** Tells the tiers that the request is over once no store can follow. */
    method MaybeFinalize(req: Req, exclude: Option<nat>)
      requires Core() && Log({req}) && req in states
      modifies this`states, this`trace
      ensures Valid()
      ensures if old(states)[req].isFinished && old(states)[req].pendingStores == 0
              then states == old(states) - {req} && trace == old(trace) + FinishEvents(numTiers, req, exclude)
              else states == old(states) && trace == old(trace)
    {
      hide ClaimsHold, IdsHold, ArmedHold, TiersExist, RequestsHold, CpuOffloadingManager.Valid, CachePolicy.Held,
          FinishEvents;
      if !states[req].isFinished || states[req].pendingStores != 0 {
        RequestSettled(states, batches, known, over, trace, req);
        return;
      }
      PendingTiers(waiting, states, numTiers, req);
      RequestEnds(states, batches, known, over, trace, {req}, req, FinishEvents(numTiers, req, exclude));
      assert {req} - {req} == {};
      trace := trace + FinishEvents(numTiers, req, exclude);
      states := states - {req};
    }

    /** `wants` are the tiers that ask for whole requests. A request may be
        announced again as long as it waits for no store and is not over. */
    method OnNewRequest(req: Req, wants: set<nat>, exclude: Option<nat>) returns (requestLevel: bool)
      requires Valid() && (req in states ==> states[req].pendingStores == 0) && NotToldOver(trace, req)
      modifies this`states, this`known
      ensures Valid() && known == old(known) + {req}
      ensures var levels := set t | t in wants && t < numTiers && exclude != Some(t);
              states == old(states)[req := ReqState(0, false, levels)] && (requestLevel <==> levels != {})
    {
      hide ClaimsHold, IdsHold, ArmedHold, TiersExist, RequestsHold, CpuOffloadingManager.Valid, CachePolicy.Held;
      var levels := set t | t in wants && t < numTiers && exclude != Some(t);
      RequestStartsIff(states, batches, known, over, trace, req, levels);
      NewTiers(waiting, states, numTiers, req, levels);
      states, known := states[req := ReqState(0, false, levels)], known + {req};
      requestLevel := levels != {};
    }

    method OnRequestFinished(req: Req, exclude: Option<nat>)
      requires Valid() && req in states
      modifies this`states, this`trace, this`over
      ensures Valid() && over == old(over) + {req}
      ensures if old(states)[req].pendingStores == 0
              then states == old(states) - {req} && trace == old(trace) + FinishEvents(numTiers, req, exclude)
              else states == old(states)[req := old(states)[req].(isFinished := true)] && trace == old(trace)
    {
      hide ClaimsHold, IdsHold, ArmedHold, TiersExist, RequestsHold, CpuOffloadingManager.Valid, CachePolicy.Held,
          FinishEvents;
      RequestMarked(states, batches, known, over, trace, req);
      PendingTiers(waiting, states, numTiers, req);
      states, over := states[req := states[req].(isFinished := true)], over + {req};
      MaybeFinalize(req, exclude);
    }

    // ---- ids of jobs taken back ----

    /** Hands over the ids of jobs taken back. They stay known for 600 seconds
        more, so that a late report of one does no harm. */
    method DrainFlushJobIds(now: real) returns (ids: set<nat>)
      requires Valid()
      modifies this`retracted, this`drained
      ensures Valid() && ids == old(retracted) && retracted == {}
      ensures forall id :: id in ids ==> id in drained && drained[id] == now + 600.0
      ensures forall id :: id in old(drained) && id !in ids ==>
                (id in drained <==> now <= old(drained)[id]) && (id in drained ==> drained[id] == old(drained)[id])
      ensures drained.Keys <= ids + old(drained).Keys
    {
      hide ClaimsHold, IdsHold, ArmedHold, TiersExist, RequestsHold, CpuOffloadingManager.Valid, CachePolicy.Held;
      ids := retracted;
      IdsDrained(jobIdCounter, jobs, startedAt, retracted, drained, batches, nextBatch, numTiers, now);
      retracted, drained := {}, AfterDrain(drained, ids, now);
    }

    // ---- reset ----

    /** Bookkeeping of everything under way is dropped. */
    method DropBookkeeping() returns (done: set<Req>)
      requires IdsHold(jobIdCounter, jobs, startedAt, retracted, drained, batches, nextBatch, numTiers)
      requires TiersExist(waiting, states, numTiers) && Log({}) && jobs == map[]
      modifies this`waiting, this`deadline, this`owner, this`states, this`loads, this`batches, this`processedThisStep
      ensures IdsHold(jobIdCounter, jobs, startedAt, retracted, drained, batches, nextBatch, numTiers)
      ensures ArmedHold(deadline, owner, batches, storeTtl > 0.0) && TiersExist(waiting, states, numTiers)
      ensures ClaimsHold(map[], loads, jobs, waiting, batches) && Log(done)
      ensures waiting == map[] && deadline == map[] && batches == map[] && !processedThisStep
      ensures states == NonePending(old(states)) && done == FinishedRequests(states)
    {
      hide ClaimsHold, IdsHold, ArmedHold, TiersExist, RequestsHold, NonePending, FinishedRequests;
      StoresForgotten(states, batches, known, over, trace);
      NothingUnderWay(jobIdCounter, jobs, startedAt, retracted, drained, batches, nextBatch, numTiers, waiting,
          states, storeTtl > 0.0);
      done := FinishedRequests(states);
      SameFinished(states);
      waiting, deadline, owner, processedThisStep := map[], map[], map[], false;
      states, batches, loads := NonePending(states), map[], multiset{};
    }

    /** ... and the blocks with it. */
    method ForgetAll() returns (done: set<Req>)
      requires Valid() && jobs == map[]
      modifies this`waiting, this`deadline, this`owner, this`states, this`loads, this`batches, this`processedThisStep
      modifies primary`numEvictable, primary`numWritePending, primary`freeList, primary`numAllocated,
          primary.policy.Objects()
      ensures Core() && Log(done) && Held() == map[]
      ensures waiting == map[] && deadline == map[] && batches == map[] && !processedThisStep
      ensures states == NonePending(old(states)) && done == FinishedRequests(states)
    {
      hide ClaimsHold, IdsHold, ArmedHold, TiersExist, RequestsHold, CpuOffloadingManager.Valid, CachePolicy.Held,
          NonePending, FinishedRequests;
      primary.ResetCache();
      done := DropBookkeeping();
    }

    method FinalizeAll(done: set<Req>)
      requires Core() && Log(done)
      requires forall r :: r in done ==> r in states && states[r].isFinished && states[r].pendingStores == 0
      modifies this`states, this`trace
      ensures Valid() && states == old(states) - done && old(trace) <= trace
      ensures forall r, t: nat :: r in done && t < numTiers ==> RequestFinished(t, r) in trace
    {
      hide ClaimsHold, IdsHold, ArmedHold, TiersExist, RequestsHold, CpuOffloadingManager.Valid, CachePolicy.Held;
      var todo := done;
      while todo != {}
        invariant Core() && Log(todo) && todo <= done && states == old(states) - (done - todo) && old(trace) <= trace
        invariant forall r, t: nat :: r in done && r !in todo && t < numTiers ==> RequestFinished(t, r) in trace
      {
        var r :| r in todo;
        RequestEnds(states, batches, known, over, trace, todo, r, FinishEvents(numTiers, r, None));
        PendingTiers(waiting, states, numTiers, r);
        trace := trace + FinishEvents(numTiers, r, None);
        states, todo := states - {r}, todo - {r};
      }
    }

    /** The tiers have drained, so every job is reported. Nothing stays behind;
        requests that were only waiting for a store are over now. */
    method ResetCache(reports: seq<Report>, now: real)
      requires Valid() && ReportsFit(reports) && jobs.Keys <= JobsOf(reports)
      modifies this`jobs, this`startedAt, this`retracted, this`drained, this`failures, this`waiting
      modifies this`deadline, this`owner, this`batches, this`states, this`loads, this`processedThisStep, this`trace
      modifies primary`numEvictable, primary`numWritePending, primary`freeList, primary`numAllocated,
          primary.policy.Objects()
      ensures Valid() && Held() == map[] && jobs == map[] && waiting == map[] && deadline == map[] && batches == map[]
      ensures !processedThisStep
      ensures states == NonePending(old(states)) - FinishedRequests(old(states))
      ensures forall r :: r in states <==> r in old(states) && !old(states)[r].isFinished
      ensures forall r :: r in states ==> states[r] == ReqState(0, false, old(states)[r].requestLevel)
      ensures forall r, t: nat :: r in FinishedRequests(old(states)) && t < numTiers ==> RequestFinished(t, r) in trace
    {
      hide ClaimsHold, IdsHold, ArmedHold, TiersExist, RequestsHold, CpuOffloadingManager.Valid, CachePolicy.Held,
          JobsOf, ReportsFit, NonePending, FinishedRequests;
      AfterReset(states);
      ProcessFinishedJobs(reports, now);
      assert jobs == map[];
      SameFinished(states);
      var done := ForgetAll();
      FinalizeAll(done);
    }
  }
}
