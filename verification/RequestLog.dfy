/** When the secondary tiers are told that a request is over. */
module RequestLog {
  import opened Sequences
  import opened Claims

  datatype ReqState = ReqState(pendingStores: int, isFinished: bool, requestLevel: set<nat>)

  /** The calls a secondary tier receives for a request, oldest first. */
  datatype Event =
    | SubmitStore(tier: nat, req: Req)
    | SubmitLoad(tier: nat, req: Req)
    | RequestFinished(tier: nat, req: Req)

  function BatchesOf(batches: Batches, req: Req): set<nat> {
    set b | b in batches && batches[b].req == req
  }

  /** No tier hears twice that a request is over, nor gets a store of it after. */
  ghost predicate InOrder(trace: seq<Event>) {
    forall i, j :: 0 <= i < j < |trace| && trace[i].RequestFinished? && trace[j].req == trace[i].req
                   ==> !trace[j].SubmitStore? && trace[j] != trace[i]
  }

  /** What was said so far only concerns requests that are no longer active. */
  ghost predicate FinishedAreOver(trace: seq<Event>, active: set<Req>, over: set<Req>) {
    forall e :: e in trace && e.RequestFinished? ==> e.req !in active && e.req in over
  }

  ghost predicate Seen(trace: seq<Event>, known: set<Req>) {
    forall e :: e in trace && !e.SubmitLoad? ==> e.req in known
  }

  /** An active request counts its prepared, not completed stores. It waits for
      them before it is over, except those in `but`, which are being handled. */
  ghost predicate RequestsHold(states: map<Req, ReqState>, batches: Batches, known: set<Req>, over: set<Req>,
                               trace: seq<Event>, but: set<Req>) {
    && states.Keys <= known
    && (forall b :: b in batches ==> batches[b].req in states)
    && (forall r :: r in states ==> states[r].pendingStores == |BatchesOf(batches, r)|)
    && (forall r :: r in states && r !in but ==> !(states[r].isFinished && states[r].pendingStores == 0))
    && (forall r :: r in states && states[r].isFinished ==> r in over)
    && InOrder(trace) && FinishedAreOver(trace, states.Keys, over) && Seen(trace, known)
  }

  /** One call to every tier but the excluded one. */
  function FinishEvents(tiers: nat, req: Req, exclude: Option<nat>): (r: seq<Event>)
    ensures forall e :: e in r <==> e.RequestFinished? && e.req == req && e.tier < tiers && exclude != Some(e.tier)
    ensures Distinct(r)
  {
    if tiers == 0 then []
    else
      FinishEvents(tiers - 1, req, exclude)
      + if exclude == Some(tiers - 1) then [] else [RequestFinished(tiers - 1, req)]
  }

  /** A request may be announced, also again, exactly when no store of it is
      pending and no tier has been told that it is over. */
  lemma RequestStartsIff(states: map<Req, ReqState>, batches: Batches, known: set<Req>, over: set<Req>,
                         trace: seq<Event>, req: Req, levels: set<nat>)
    requires RequestsHold(states, batches, known, over, trace, {})
    ensures RequestsHold(states[req := ReqState(0, false, levels)], batches, known + {req}, over, trace, {})
            <==> (req in states ==> states[req].pendingStores == 0) && NotToldOver(trace, req)
  {
    hide InOrder;
    var after := states[req := ReqState(0, false, levels)];
    NonePendingIff(states, batches, known, over, trace, req);
    if RequestsHold(after, batches, known + {req}, over, trace, {}) {
      assert after[req].pendingStores == |BatchesOf(batches, req)|;
      assert req in after.Keys;
    }
  }

  lemma NonePendingIff(states: map<Req, ReqState>, batches: Batches, known: set<Req>, over: set<Req>,
                       trace: seq<Event>, req: Req)
    requires RequestsHold(states, batches, known, over, trace, {})
    ensures |BatchesOf(batches, req)| == 0 <==> (req in states ==> states[req].pendingStores == 0)
  {
    if req !in states {
      assert BatchesOf(batches, req) == {};
    }
  }

  predicate NotToldOver(trace: seq<Event>, req: Req) {
    forall e :: e in trace && e.RequestFinished? ==> e.req != req
  }

  lemma StoreSubmitted(states: map<Req, ReqState>, batches: Batches, known: set<Req>, over: set<Req>,
                       trace: seq<Event>, but: set<Req>, tier: nat, req: Req)
    requires RequestsHold(states, batches, known, over, trace, but) && req in states
    ensures RequestsHold(states, batches, known, over, trace + [SubmitStore(tier, req)], but)
  {
    hide BatchesOf;
    assert forall i :: 0 <= i < |trace| && trace[i].RequestFinished? ==> trace[i] in trace;
  }

  lemma LoadSubmitted(states: map<Req, ReqState>, batches: Batches, known: set<Req>, over: set<Req>,
                      trace: seq<Event>, but: set<Req>, tier: nat, req: Req)
    requires RequestsHold(states, batches, known, over, trace, but)
    ensures RequestsHold(states, batches, known, over, trace + [SubmitLoad(tier, req)], but)
  {
    hide BatchesOf;
  }

  lemma StorePrepared(states: map<Req, ReqState>, batches: Batches, known: set<Req>, over: set<Req>,
                      trace: seq<Event>, b: nat, batch: Batch)
    requires RequestsHold(states, batches, known, over, trace, {}) && batch.req in states && b !in batches
    ensures var state := states[batch.req];
            RequestsHold(states[batch.req := state.(pendingStores := state.pendingStores + 1)], batches[b := batch],
                         known, over, trace, {})
  {
    hide InOrder, FinishedAreOver, Seen, BatchesOf;
    var after := states[batch.req := states[batch.req].(pendingStores := states[batch.req].pendingStores + 1)];
    assert after.Keys == states.Keys;
    OneBatchMore(batches, b, batch);
  }

  lemma OneBatchMore(batches: Batches, b: nat, batch: Batch)
    requires b !in batches
    ensures forall r :: |BatchesOf(batches[b := batch], r)|
                        == |BatchesOf(batches, r)| + if r == batch.req then 1 else 0
  {
    forall r ensures |BatchesOf(batches[b := batch], r)| == |BatchesOf(batches, r)| + if r == batch.req then 1 else 0 {
      assert BatchesOf(batches[b := batch], r) == BatchesOf(batches, r) + if r == batch.req then {b} else {};
    }
  }

  lemma OneBatchLess(batches: Batches, b: nat)
    requires b in batches
    ensures forall r :: |BatchesOf(batches, r)|
                        == |BatchesOf(batches - {b}, r)| + if r == batches[b].req then 1 else 0
  {
    assert (batches - {b})[b := batches[b]] == batches;
    OneBatchMore(batches - {b}, b, batches[b]);
  }

  lemma StoreCompleted(states: map<Req, ReqState>, batches: Batches, known: set<Req>, over: set<Req>,
                       trace: seq<Event>, b: nat)
    requires RequestsHold(states, batches, known, over, trace, {}) && b in batches
    ensures var req := batches[b].req;
            && states[req].pendingStores > 0
            && RequestsHold(states[req := states[req].(pendingStores := states[req].pendingStores - 1)], batches - {b},
                            known, over, trace, {req})
  {
    hide InOrder, FinishedAreOver, Seen, BatchesOf;
    var req := batches[b].req;
    OneBatchLess(batches, b);
    var after := states[req := states[req].(pendingStores := states[req].pendingStores - 1)];
    assert after.Keys == states.Keys;
  }

  /** Taking a store back keeps it pending: the request is not over. */
  lemma StoreTakenBack(states: map<Req, ReqState>, batches: Batches, known: set<Req>, over: set<Req>,
                       trace: seq<Event>, but: set<Req>, b: nat)
    requires RequestsHold(states, batches, known, over, trace, but) && b in batches
    ensures RequestsHold(states, batches[b := batches[b].(live := false)], known, over, trace, but)
  {
    forall r ensures BatchesOf(batches[b := batches[b].(live := false)], r) == BatchesOf(batches, r) {}
  }

  /** As long as a prepared store of a request is not completed, live or taken
      back, no tier has been told that the request is over. */
  lemma PendingStoreKeepsRequest(states: map<Req, ReqState>, batches: Batches, known: set<Req>, over: set<Req>,
                                 trace: seq<Event>, but: set<Req>, b: nat, tier: nat)
    requires RequestsHold(states, batches, known, over, trace, but) && b in batches
    ensures batches[b].req in states && states[batches[b].req].pendingStores > 0
    ensures RequestFinished(tier, batches[b].req) !in trace
  {
    assert b in BatchesOf(batches, batches[b].req);
  }

  lemma FinishKeepsOrder(trace: seq<Event>, events: seq<Event>, req: Req)
    requires InOrder(trace) && Distinct(events)
    requires forall e :: e in events ==> e.RequestFinished? && e.req == req
    requires forall e :: e in trace && e.RequestFinished? ==> e.req != req
    ensures InOrder(trace + events)
  {
    var all := trace + events;
    forall i, j | 0 <= i < j < |all| && all[i].RequestFinished? && all[j].req == all[i].req
      ensures !all[j].SubmitStore? && all[j] != all[i]
    {
      assert i < |trace| ==> all[i] in trace;
      assert j >= |trace| ==> all[j] in events;
      assert i >= |trace| ==> events[i - |trace|] != events[j - |trace|];
    }
  }

  lemma RequestEnds(states: map<Req, ReqState>, batches: Batches, known: set<Req>, over: set<Req>,
                    trace: seq<Event>, but: set<Req>, req: Req, events: seq<Event>)
    requires RequestsHold(states, batches, known, over, trace, but) && req in states
    requires states[req].isFinished && states[req].pendingStores == 0 && Distinct(events)
    requires forall e :: e in events ==> e.RequestFinished? && e.req == req
    ensures RequestsHold(states - {req}, batches, known, over, trace + events, but - {req})
  {
    assert BatchesOf(batches, req) == {};
    FinishKeepsOrder(trace, events, req);
    forall b | b in batches ensures batches[b].req != req {
      assert b !in BatchesOf(batches, req);
    }
    assert (states - {req}).Keys == states.Keys - {req};
  }

  lemma RequestMarked(states: map<Req, ReqState>, batches: Batches, known: set<Req>, over: set<Req>,
                      trace: seq<Event>, req: Req)
    requires RequestsHold(states, batches, known, over, trace, {}) && req in states
    ensures RequestsHold(states[req := states[req].(isFinished := true)], batches, known, over + {req}, trace, {req})
  {
    assert states[req := states[req].(isFinished := true)].Keys == states.Keys;
  }

  lemma RequestSettled(states: map<Req, ReqState>, batches: Batches, known: set<Req>, over: set<Req>,
                       trace: seq<Event>, req: Req)
    requires RequestsHold(states, batches, known, over, trace, {req})
    requires req in states ==> !(states[req].isFinished && states[req].pendingStores == 0)
    ensures RequestsHold(states, batches, known, over, trace, {})
  {}

  function NonePending(states: map<Req, ReqState>): map<Req, ReqState> {
    map r | r in states :: states[r].(pendingStores := 0)
  }

  function FinishedRequests(states: map<Req, ReqState>): set<Req> {
    set r | r in states && states[r].isFinished
  }

  /** The requests left are the unfinished ones, and they wait for nothing. */
  lemma AfterReset(states: map<Req, ReqState>)
    ensures var left := NonePending(states) - FinishedRequests(states);
            && (forall r :: r in left <==> r in states && !states[r].isFinished)
            && forall r :: r in left ==> left[r] == ReqState(0, false, states[r].requestLevel)
  {}

  /** A reset forgets every prepared store. */
  lemma StoresForgotten(states: map<Req, ReqState>, batches: Batches, known: set<Req>, over: set<Req>,
                        trace: seq<Event>)
    requires RequestsHold(states, batches, known, over, trace, {})
    ensures RequestsHold(NonePending(states), map[], known, over, trace, FinishedRequests(states))
  {
    assert NonePending(states).Keys == states.Keys;
    forall r ensures BatchesOf(map[], r) == {} {}
  }
}
