/** The part of `schedule` that goes through the RUNNING queue, preempting
    requests from the queue it is walking over. */
module RunningLoop {
  import opened Sequences

  /** What the pass reads of a request. */
  datatype Request = Request(id: nat, priority: int, arrival: int, computed: nat, placeholders: nat, promptTokens: nat,
                             maxTokens: nat, tokensWithSpec: nat, isPrefillChunk: bool, nextEligibleStep: nat) {
    /** `this` is preempted no later than `other`. */
    predicate AtLeast(other: Request) {
      priority > other.priority || (priority == other.priority && arrival >= other.arrival)
    }
  }

  function Min(a: nat, b: nat): nat {
    if a < b then a else b
  }

  /** What is the same for all requests of a step. `clip` stands for the
      alignment of recurrent state and the encoder's budget. */
  datatype Step = Step(current: nat, deferPrefills: bool, longPrefill: nat, maxModelLen: nat, sampled: nat,
                       clip: (Request, nat) -> nat) {
    /** The request has tokens to run, and they are within the model's length. */
    ghost predicate Fits(r: Request) {
      && r.computed <= r.tokensWithSpec + r.placeholders && r.computed + sampled <= maxModelLen
      && forall n :: clip(r, n) <= n
    }

    /** The request sits this step out. */
    predicate Skips(r: Request) {
      || (r.placeholders > 0 && r.computed + 2 >= r.promptTokens + r.maxTokens + r.placeholders)
      || current < r.nextEligibleStep
      || (deferPrefills && r.isPrefillChunk)
    }

    /** `n` tokens respect every limit when so much of the budgets is left. */
    ghost predicate Within(r: Request, n: nat, tokensLeft: nat, inputLeft: nat) {
      && n <= r.tokensWithSpec + r.placeholders - r.computed && (longPrefill > 0 ==> n <= longPrefill)
      && n <= tokensLeft && n <= inputLeft && r.computed + n + sampled <= maxModelLen
    }

    /** The request gets the most tokens within the limits, as far as `clip`
        leaves them. */
    ghost predicate Gets(r: Request, n: nat, tokensLeft: nat, inputLeft: nat) {
      exists most: nat ::
        && Within(r, most, tokensLeft, inputLeft) && n == clip(r, most)
        && forall m: nat :: Within(r, m, tokensLeft, inputLeft) ==> m <= most
    }
  }

  /** A visit: what was left of the budgets, and how many tokens were given. */
  datatype Visit = Visit(tokensLeft: nat, inputLeft: nat, given: nat)

  /** A question to the cache, and its answer. */
  datatype Ask = Ask(request: Request, n: nat, room: bool)

  /** Each visited request got what the budgets left for it, with the cache's
      consent, and has it still unless it was preempted since. The cache is only
      asked for requests that have tokens to run. */
  ghost predicate VisitsFair(step: Step, draftSlots: nat, visited: seq<Request>, visits: seq<Visit>, asked: seq<Ask>,
                             tokens: map<Request, nat>, preempted: seq<Request>) {
    && |visits| == |visited| && tokens.Keys <= Elements(visited) && (forall a :: a in asked ==> a.n > 0)
    && forall i :: 0 <= i < |visited| ==>
         && VisitFair(step, draftSlots, visited[i], visits[i], asked)
         && (visited[i] in tokens ==> visits[i].given == tokens[visited[i]] > 0)
         && (visited[i] !in tokens && visited[i] !in preempted ==> visits[i].given == 0)
  }

  ghost predicate VisitFair(step: Step, draftSlots: nat, r: Request, v: Visit, asked: seq<Ask>) {
    && step.Fits(r) && v.tokensLeft > 0 && v.inputLeft > draftSlots
    && (if step.Skips(r) then v.given == 0 else step.Gets(r, v.given, v.tokensLeft, v.inputLeft - draftSlots))
    && (v.given > 0 ==> Ask(r, v.given, true) in asked)
  }

  /** All that the cache was asked since: it refused `n` tokens for `r` once for
      each request preempted, and had room in the end if that ended well. */
  predicate AskedFor(before: seq<Ask>, after: seq<Ask>, r: Request, n: nat, refusals: nat, room: bool) {
    after == before + seq(refusals, _ => Ask(r, n, false)) + if room then [Ask(r, n, true)] else []
  }

  /** The tokens of the scheduled requests together. */
  function Total(scheduled: seq<Request>, tokens: map<Request, nat>): nat
    requires forall r :: r in scheduled ==> r in tokens
  {
    if scheduled == [] then 0
    else Total(scheduled[..|scheduled| - 1], tokens) + tokens[scheduled[|scheduled| - 1]]
  }

  lemma {:induction false} TotalSame(scheduled: seq<Request>, tokens: map<Request, nat>, other: map<Request, nat>)
    requires forall r :: r in scheduled ==> r in tokens && r in other && tokens[r] == other[r]
    ensures Total(scheduled, tokens) == Total(scheduled, other)
  {
    if scheduled != [] {
      TotalSame(scheduled[..|scheduled| - 1], tokens, other);
    }
  }

  lemma TotalWith(scheduled: seq<Request>, tokens: map<Request, nat>, r: Request, n: nat)
    requires r !in scheduled && Distinct(scheduled) && tokens.Keys == Elements(scheduled)
    requires forall q :: q in scheduled ==> q in tokens
    ensures Total(scheduled + [r], tokens[r := n]) == Total(scheduled, tokens) + n
    ensures Distinct(scheduled + [r]) && tokens[r := n].Keys == Elements(scheduled + [r])
  {
    TotalSame(scheduled, tokens, tokens[r := n]);
    assert (scheduled + [r])[..|scheduled|] == scheduled;
  }

  lemma {:induction false} TotalWithout(scheduled: seq<Request>, tokens: map<Request, nat>, r: Request)
    requires Distinct(scheduled) && r in scheduled && forall q :: q in scheduled ==> q in tokens
    ensures Total(Drop(scheduled, {r}), tokens) + tokens[r] == Total(scheduled, tokens)
    ensures |Drop(scheduled, {r})| == |scheduled| - 1
  {
    hide Drop;
    var front, last := scheduled[..|scheduled| - 1], scheduled[|scheduled| - 1];
    assert scheduled == front + [last];
    DropAppend(front, [last], {r});
    if last == r {
      DropNothing(front, {r});
      DropOnly(r);
      assert Drop(scheduled, {r}) == front;
    } else {
      TotalWithout(front, tokens, r);
      DropNothing([last], {r});
      var rest := Drop(front, {r}) + [last];
      assert rest[..|rest| - 1] == Drop(front, {r});
    }
  }

  /** The queue is what it was without the preempted requests, in order. */
  ghost predicate QueueHolds(queue: seq<Request>, preempted: seq<Request>, running: seq<Request>,
                             waiting: seq<Request>, waiting0: seq<Request>) {
    && Distinct(queue) && Distinct(preempted) && Elements(preempted) <= Elements(queue)
    && running == Drop(queue, Elements(preempted))
    && waiting == Reverse(preempted) + waiting0
  }

  /** No preempted request keeps an entry; up to the cursor the survivors were
      visited once each, in the order of the queue, and behind it nobody was. */
  ghost predicate VisitsHold(queue: seq<Request>, preempted: seq<Request>, running: seq<Request>, cursor: nat,
                             visited: seq<Request>, scheduled: seq<Request>) {
    && cursor <= |running| && Distinct(visited) && Elements(visited) <= Elements(queue)
    && Elements(scheduled) <= Elements(running[..cursor])
    && Drop(visited, Elements(preempted)) == running[..cursor]
  }

  class RunningPass {
    const maxTokens: nat
    const maxInput: nat
    const draftSlots: nat
    const byPriority: bool
    const step: Step
    var running: seq<Request>
    var waiting: seq<Request>
    var scheduled: seq<Request>
    var tokens: map<Request, nat>
    var preempted: seq<Request>
    var tokenBudget: int
    var inputBudget: int
    var cursor: nat
    /** The queue as it was, and the requests looked at, in order. */
    ghost const queue: seq<Request>
    ghost const waiting0: seq<Request>
    ghost var visited: seq<Request>
    ghost var visits: seq<Visit>
    ghost var asked: seq<Ask>

    /** Budgets: what is left and what is given out is what there was. */
    ghost predicate Budgets()
      reads this`scheduled, this`tokens, this`tokenBudget, this`inputBudget
    {
      && (forall r :: r in scheduled ==> r in tokens) && tokens.Keys == Elements(scheduled) && Distinct(scheduled)
      && tokenBudget + Total(scheduled, tokens) == maxTokens && tokenBudget >= 0
      && inputBudget + Total(scheduled, tokens) + draftSlots * |scheduled| == maxInput && inputBudget >= 0
      && (forall r :: r in tokens ==> tokens[r] > 0)
    }

    ghost predicate Valid()
      reads this
    {
      && Budgets() && QueueHolds(queue, preempted, running, waiting, waiting0)
      && VisitsHold(queue, preempted, running, cursor, visited, scheduled)
      && VisitsFair(step, draftSlots, visited, visits, asked, tokens, preempted)
    }

    constructor (queue: seq<Request>, waiting: seq<Request>, maxTokens: nat, maxInput: nat, draftSlots: nat,
                 byPriority: bool, step: Step)
      requires Distinct(queue)
      ensures Valid() && this.queue == queue && running == queue && cursor == 0 && scheduled == [] && preempted == []
      ensures this.maxTokens == maxTokens && this.maxInput == maxInput && this.draftSlots == draftSlots
      ensures this.byPriority == byPriority && this.step == step
    {
      this.queue, this.waiting0, this.waiting := queue, waiting, waiting;
      this.maxTokens, this.maxInput, this.draftSlots, this.byPriority := maxTokens, maxInput, draftSlots, byPriority;
      this.step, visits, asked := step, [], [];
      running, scheduled, tokens, preempted := queue, [], map[], [];
      tokenBudget, inputBudget, cursor, visited := maxTokens, maxInput, 0, [];
      new;
      DropNothing(queue, Elements([]));
    }

    /** The request to preempt under priority scheduling: the first of the least
        urgent, and among these latest, ones. */
    method LeastUrgent() returns (at: nat)
      requires running != []
      ensures at < |running| && forall j :: 0 <= j < |running| ==> running[at].AtLeast(running[j])
      ensures forall j :: 0 <= j < at ==>
        || running[j].priority < running[at].priority
        || (running[j].priority == running[at].priority && running[j].arrival < running[at].arrival)
    {
      at := 0;
      for i := 1 to |running|
        invariant at < i && forall j :: 0 <= j < i ==> running[at].AtLeast(running[j])
        invariant forall j :: 0 <= j < at ==> !running[j].AtLeast(running[at])
      {
        if !running[at].AtLeast(running[i]) {
          at := i;
        }
      }
    }

    /** Takes back what was scheduled for a request that is preempted. */
    method Unschedule(victim: Request)
      requires Budgets()
      modifies this`scheduled, this`tokens, this`tokenBudget, this`inputBudget
      ensures Budgets() && tokenBudget >= old(tokenBudget) && inputBudget >= old(inputBudget)
      ensures scheduled == Drop(old(scheduled), {victim}) && tokens == old(tokens) - {victim}
    {
      if victim in scheduled {
        var restored := tokens[victim];
        TotalWithout(scheduled, tokens, victim);
        DropDistinct(scheduled, {victim});
        TotalSame(Drop(scheduled, {victim}), tokens, tokens - {victim});
        assert draftSlots * |scheduled| == draftSlots * (|scheduled| - 1) + draftSlots;
        scheduled, tokens := Drop(scheduled, {victim}), tokens - {victim};
        tokenBudget, inputBudget := tokenBudget + restored, inputBudget + restored + draftSlots;
        assert tokens.Keys == Elements(scheduled);
      } else {
        DropNothing(scheduled, {victim});
      }
    }

    /** Preempts one request. The request under the cursor stays under it unless
        it is the victim itself. */
    method PreemptOne() returns (victim: Request)
      requires Valid() && cursor < |running|
      modifies this`running, this`waiting, this`scheduled, this`tokens, this`preempted, this`tokenBudget,
          this`inputBudget, this`cursor
      ensures Valid() && preempted == old(preempted) + [victim] && |running| == |old(running)| - 1
      ensures tokenBudget >= old(tokenBudget) && inputBudget >= old(inputBudget)
      ensures victim in old(running) && running == Drop(old(running), {victim})
      ensures byPriority ==> forall r :: r in old(running) ==>
        victim.priority > r.priority || (victim.priority == r.priority && victim.arrival >= r.arrival)
      ensures !byPriority ==> victim == old(running)[|old(running)| - 1]
      ensures victim != old(running)[old(cursor)] ==> cursor < |running| && running[cursor] == old(running)[old(cursor)]
      ensures |running| - cursor <= |old(running)| - old(cursor)
    {
      hide QueueHolds, VisitsHold, Drop, Distinct, VisitsFair;
      RunningDistinct(queue, preempted, running, waiting, waiting0);
      var at: nat := |running| - 1;
      if byPriority {
        at := LeastUrgent();
      }
      victim := running[at];
      VictimLeaves(queue, preempted, running, waiting, waiting0, cursor, visited, scheduled, at);
      running := running[..at] + running[at + 1..];
      if at < cursor {
        cursor := cursor - 1;
      }
      ghost var was := tokens;
      if byPriority {
        Unschedule(victim);
      }
      StillFair(step, draftSlots, visited, visits, asked, was, preempted, victim);
      preempted, waiting := preempted + [victim], [victim] + waiting;
    }

    /** Preempts until the cache has room for `n` tokens of `request`, or it is
        itself the victim. The cache decides freely whether it has room. */
    method AllocateSlots(request: Request, n: nat) returns (ok: bool)
      requires Valid() && cursor < |running| && running[cursor] == request && n > 0
      modifies this`running, this`waiting, this`scheduled, this`tokens, this`preempted, this`tokenBudget,
          this`inputBudget, this`cursor, this`asked
      ensures Valid() && tokenBudget >= old(tokenBudget) && inputBudget >= old(inputBudget)
      ensures ok ==> cursor < |running| && running[cursor] == request
      ensures !ok ==> |preempted| > |old(preempted)| && preempted[|preempted| - 1] == request
      ensures old(preempted) <= preempted && |running| <= |old(running)|
      ensures |running| - cursor <= |old(running)| - old(cursor)
      ensures AskedFor(old(asked), asked, request, n, |preempted| - |old(preempted)|, ok)
    {
      hide Budgets, QueueHolds, VisitsHold, VisitsFair;
      while true
        invariant Valid() && tokenBudget >= old(tokenBudget) && inputBudget >= old(inputBudget)
        invariant cursor < |running| && running[cursor] == request
        invariant old(preempted) <= preempted && |running| <= |old(running)|
        invariant |running| - cursor <= |old(running)| - old(cursor)
        invariant AskedFor(old(asked), asked, request, n, |preempted| - |old(preempted)|, false)
        decreases |running|
      {
        var room: bool := *;
        FairAfterAsking(step, draftSlots, visited, visits, asked, tokens, preempted, Ask(request, n, room));
        asked := asked + [Ask(request, n, room)];
        if room {
          return true;
        }
        var victim := PreemptOne();
        if victim == request {
          return false;
        }
      }
    }

    /** The request under the cursor is done with; `n` tokens are scheduled for it. */
    method Advance(n: nat, ghost visit: Visit)
      requires Valid() && cursor < |running| && visit.given == n
      requires n <= tokenBudget && (n > 0 ==> n <= inputBudget - draftSlots)
      requires VisitFair(step, draftSlots, running[cursor], visit, asked)
      modifies this`scheduled, this`tokens, this`tokenBudget, this`inputBudget, this`cursor, this`visited, this`visits
      ensures Valid() && cursor == old(cursor) + 1 && visited == old(visited) + [running[old(cursor)]]
      ensures visits == old(visits) + [visit]
      ensures if n == 0 then scheduled == old(scheduled) && tokens == old(tokens)
              else
                && scheduled == old(scheduled) + [running[old(cursor)]]
                && tokens == old(tokens)[running[old(cursor)] := n]
    {
      hide QueueHolds, VisitsHold, Drop, Distinct, VisitsFair, VisitFair;
      var request := running[cursor];
      RunningDistinct(queue, preempted, running, waiting, waiting0);
      CursorAdvances(queue, preempted, running, waiting, waiting0, cursor, visited, scheduled);
      VisitedOne(step, draftSlots, visited, visits, asked, tokens, preempted, request, visit);
      visited, cursor, visits := visited + [request], cursor + 1, visits + [visit];
      if n > 0 {
        Grant(request, n);
      }
    }

    method Grant(request: Request, n: nat)
      requires Budgets() && request !in scheduled && 0 < n <= tokenBudget && n <= inputBudget - draftSlots
      modifies this`scheduled, this`tokens, this`tokenBudget, this`inputBudget
      ensures Budgets()
      ensures scheduled == old(scheduled) + [request] && tokens == old(tokens)[request := n]
    {
      hide Total, Distinct;
      TotalWith(scheduled, tokens, request, n);
      assert draftSlots * (|scheduled| + 1) == draftSlots * |scheduled| + draftSlots;
      scheduled, tokens := scheduled + [request], tokens[request := n];
      tokenBudget, inputBudget := tokenBudget - n, inputBudget - n - draftSlots;
    }

    /** The whole pass. It ends by itself, and unless a budget is used up or the
        request under the cursor had to be preempted, every survivor was visited. */
    method ScheduleRunning() returns (stuck: bool)
      requires Valid() && forall r :: r in queue ==> step.Fits(r)
      modifies this
      ensures Valid()
      ensures cursor == |running| || tokenBudget == 0 || inputBudget <= draftSlots || stuck
      ensures stuck ==> preempted != [] && asked != [] && asked[|asked| - 1].request == preempted[|preempted| - 1]
                        && !asked[|asked| - 1].room
      ensures forall r :: r in tokens ==> !SitsOut(r) && EntryFits(r, tokens[r])
    {
      hide SitsOut, EntryFits, Budgets, QueueHolds, VisitsHold, VisitsFair, Step.Fits, Step.Skips, Step.Gets;
      stuck := false;
      while cursor < |running| && tokenBudget > 0
        invariant Valid()
        decreases |running|, |running| - cursor
        modifies this
      {
        if inputBudget <= draftSlots {
          break;
        }
        var request := running[cursor];
        RunningFrom(queue, preempted, running, waiting, waiting0, request);
        var n := 0;
        if !step.Skips(request) {
          n := CountTokens(request, tokenBudget, inputBudget - draftSlots);
        }
        ghost var visit := Visit(tokenBudget, inputBudget, n);
        if n == 0 {
          Advance(0, visit);
          continue;
        }
        var ok := AllocateSlots(request, n);
        if !ok {
          stuck := true;
          break;
        }
        Advance(n, visit);
      }
      NothingNegative();
      PassResult();
      assert stuck || cursor >= |running| || tokenBudget <= 0 || inputBudget <= draftSlots;
    }

    /** One limit after the other. */
    method CountTokens(r: Request, tokensLeft: nat, inputLeft: nat) returns (n: nat)
      requires step.Fits(r)
      ensures step.Gets(r, n, tokensLeft, inputLeft) && step.Within(r, n, tokensLeft, inputLeft)
      ensures (forall m :: step.clip(r, m) == m) ==> forall m: nat :: step.Within(r, m, tokensLeft, inputLeft) ==> m <= n
    {
      n := r.tokensWithSpec + r.placeholders - r.computed;
      if 0 < step.longPrefill < n {
        n := step.longPrefill;
      }
      n := Min(Min(n, tokensLeft), inputLeft);
      n := Min(n, step.maxModelLen - r.computed - step.sampled);
      assert step.Within(r, n, tokensLeft, inputLeft);
      n := step.clip(r, n);
    }

    lemma NothingNegative()
      requires Valid()
      ensures tokenBudget >= 0 && inputBudget >= 0 && cursor <= |running|
    {}

    /** What the pass leaves behind: no preempted request has an entry, each
        survivor before the cursor was visited and none behind it, nobody was
        visited twice, and the scheduled tokens fit both budgets. */
    lemma PassResult()
      requires Valid()
      ensures forall r :: r in preempted ==> r !in tokens && r !in running
      ensures forall r :: r in queue ==> r in preempted || r in running
      ensures forall i :: 0 <= i < |running| ==> (i < cursor <==> running[i] in visited)
      ensures Distinct(visited) && tokens.Keys == Elements(scheduled) <= Elements(running) && |scheduled| <= |running|
      ensures Total(scheduled, tokens) <= maxTokens && Total(scheduled, tokens) + draftSlots * |scheduled| <= maxInput
      ensures forall r :: r in visited && r !in preempted && r !in tokens ==>
                SitsOut(r) || exists t: nat, i: nat :: t > 0 && i > 0 && step.Gets(r, 0, t, i)
      ensures forall r :: r in tokens ==> !SitsOut(r) && EntryFits(r, tokens[r])
    {
      var gone := Elements(preempted);
      RunningDistinct(queue, preempted, running, waiting, waiting0);
      forall i | 0 <= i < |running| ensures i < cursor <==> running[i] in visited {
        assert running[i] in running && running[i] !in gone;
        assert running[i] in visited <==> running[i] in Drop(visited, gone);
        if i < cursor { assert running[..cursor][i] == running[i]; }
      }
      ScheduledAreRunning(scheduled, running, cursor);
      forall r | r in preempted ensures r !in tokens && r !in running {
        assert r in gone && r !in running;
        assert r in tokens ==> r in Elements(scheduled) && r in Elements(running);
      }
      forall r | r in queue ensures r in preempted || r in running {
        assert r !in gone ==> r in Drop(queue, gone);
      }
      forall r | r in tokens ensures !SitsOut(r) && EntryFits(r, tokens[r]) {
        var i :| 0 <= i < |visited| && visited[i] == r;
        assert VisitFair(step, draftSlots, visited[i], visits[i], asked);
      }
    }

    /** All that is left to do of it may have been scheduled already, it decoded
        too few steps ago, or prefills wait for a later step. */
    ghost predicate SitsOut(r: Request) {
      || (r.placeholders > 0 && r.computed + 2 - r.placeholders >= r.promptTokens + r.maxTokens)
      || step.current < r.nextEligibleStep || (step.deferPrefills && r.isPrefillChunk)
    }

    /** The request never runs past its tokens, nor past the model's length. */
    ghost predicate EntryFits(r: Request, n: nat) {
      && 0 < n && r.computed + n <= r.tokensWithSpec + r.placeholders
      && r.computed + n + step.sampled <= step.maxModelLen && (step.longPrefill > 0 ==> n <= step.longPrefill)
    }
  }

  lemma FairAfterAsking(step: Step, draftSlots: nat, visited: seq<Request>, visits: seq<Visit>, asked: seq<Ask>,
                        tokens: map<Request, nat>, preempted: seq<Request>, ask: Ask)
    requires VisitsFair(step, draftSlots, visited, visits, asked, tokens, preempted) && ask.n > 0
    ensures VisitsFair(step, draftSlots, visited, visits, asked + [ask], tokens, preempted)
  {}

  lemma StillFair(step: Step, draftSlots: nat, visited: seq<Request>, visits: seq<Visit>, asked: seq<Ask>,
                  tokens: map<Request, nat>, preempted: seq<Request>, victim: Request)
    requires VisitsFair(step, draftSlots, visited, visits, asked, tokens, preempted)
    ensures VisitsFair(step, draftSlots, visited, visits, asked, tokens - {victim}, preempted + [victim])
    ensures VisitsFair(step, draftSlots, visited, visits, asked, tokens, preempted + [victim])
  {
    hide VisitFair;
  }

  lemma VisitedOne(step: Step, draftSlots: nat, visited: seq<Request>, visits: seq<Visit>, asked: seq<Ask>,
                   tokens: map<Request, nat>, preempted: seq<Request>, r: Request, v: Visit)
    requires VisitsFair(step, draftSlots, visited, visits, asked, tokens, preempted)
    requires VisitFair(step, draftSlots, r, v, asked) && r !in visited
    ensures v.given == 0 ==> VisitsFair(step, draftSlots, visited + [r], visits + [v], asked, tokens, preempted)
    ensures v.given > 0 ==>
              VisitsFair(step, draftSlots, visited + [r], visits + [v], asked, tokens[r := v.given], preempted)
  {
    hide VisitFair;
    assert Elements(visited + [r]) == Elements(visited) + {r};
  }

  lemma ScheduledAreRunning(scheduled: seq<Request>, running: seq<Request>, cursor: nat)
    requires Distinct(scheduled) && Distinct(running) && cursor <= |running|
        && Elements(scheduled) <= Elements(running[..cursor])
    ensures Elements(scheduled) <= Elements(running) && |scheduled| <= |running|
  {
    DistinctLength(scheduled);
    DistinctLength(running);
    SubsetSize(Elements(scheduled), Elements(running));
  }

  lemma RunningFrom(queue: seq<Request>, preempted: seq<Request>, running: seq<Request>,
                    waiting: seq<Request>, waiting0: seq<Request>, request: Request)
    requires QueueHolds(queue, preempted, running, waiting, waiting0) && request in running
    ensures request in queue
  {}

  lemma CursorAdvances(queue: seq<Request>, preempted: seq<Request>, running: seq<Request>, waiting: seq<Request>,
                       waiting0: seq<Request>, cursor: nat, visited: seq<Request>, scheduled: seq<Request>)
    requires QueueHolds(queue, preempted, running, waiting, waiting0) && Distinct(running)
    requires VisitsHold(queue, preempted, running, cursor, visited, scheduled) && cursor < |running|
    ensures running[cursor] !in scheduled && running[cursor] !in visited
    ensures VisitsHold(queue, preempted, running, cursor + 1, visited + [running[cursor]], scheduled)
    ensures VisitsHold(queue, preempted, running, cursor + 1, visited + [running[cursor]], scheduled + [running[cursor]])
  {
    hide Drop;
    var r, gone := running[cursor], Elements(preempted);
    assert running[..cursor + 1] == running[..cursor] + [r];
    assert r in running && r !in gone && r in queue;
    assert r !in running[..cursor];
    assert r in visited ==> r in Drop(visited, gone);
    assert r in scheduled ==> r in Elements(scheduled);
    AppendDistinct(visited, r);
    DropAppend(visited, [r], gone);
    DropNothing([r], gone);
  }

  lemma RunningDistinct(queue: seq<Request>, preempted: seq<Request>, running: seq<Request>,
                        waiting: seq<Request>, waiting0: seq<Request>)
    requires QueueHolds(queue, preempted, running, waiting, waiting0)
    ensures Distinct(running)
  {
    DropDistinct(queue, Elements(preempted));
  }

  lemma VictimLeaves(queue: seq<Request>, preempted: seq<Request>, running: seq<Request>, waiting: seq<Request>,
                     waiting0: seq<Request>, cursor: nat, visited: seq<Request>, scheduled: seq<Request>, at: nat)
    requires QueueHolds(queue, preempted, running, waiting, waiting0) && at < |running|
    requires VisitsHold(queue, preempted, running, cursor, visited, scheduled) && cursor < |running|
    ensures var victim, rest := running[at], running[..at] + running[at + 1..];
            var cursor' := if at < cursor then cursor - 1 else cursor;
            && QueueHolds(queue, preempted + [victim], rest, [victim] + waiting, waiting0)
            && VisitsHold(queue, preempted + [victim], rest, cursor', visited, Drop(scheduled, {victim}))
            && rest == Drop(running, {victim})
            && (at != cursor ==> cursor' < |rest| && rest[cursor'] == running[cursor] && victim != running[cursor])
            && (at == |running| - 1 ==> Drop(scheduled, {victim}) == scheduled)
  {
    hide QueueHolds, VisitsHold, Drop, Distinct;
    RunningDistinct(queue, preempted, running, waiting, waiting0);
    QueueLeaves(queue, preempted, running, waiting, waiting0, at);
    VisitsLeave(queue, preempted, running, cursor, visited, scheduled, at);
  }

  lemma QueueLeaves(queue: seq<Request>, preempted: seq<Request>, running: seq<Request>, waiting: seq<Request>,
                    waiting0: seq<Request>, at: nat)
    requires QueueHolds(queue, preempted, running, waiting, waiting0) && at < |running|
    ensures QueueHolds(queue, preempted + [running[at]], running[..at] + running[at + 1..], [running[at]] + waiting,
        waiting0)
    ensures running[..at] + running[at + 1..] == Drop(running, {running[at]})
  {
    hide Drop, Distinct, Reverse;
    var victim, gone := running[at], Elements(preempted);
    DropDistinct(queue, gone);
    DropAt(running, at);
    DropTwice(queue, gone, {victim});
    assert victim in running;
    AppendDistinct(preempted, victim);
    ReverseAppend(preempted, victim);
    assert [victim] + (Reverse(preempted) + waiting0) == ([victim] + Reverse(preempted)) + waiting0;
  }

  lemma ReverseAppend(s: seq<Request>, x: Request)
    ensures Reverse(s + [x]) == [x] + Reverse(s)
  {
    assert (s + [x])[..|s|] == s;
  }

  lemma VisitsLeave(queue: seq<Request>, preempted: seq<Request>, running: seq<Request>, cursor: nat,
                    visited: seq<Request>, scheduled: seq<Request>, at: nat)
    requires VisitsHold(queue, preempted, running, cursor, visited, scheduled) && cursor < |running|
    requires Distinct(running) && at < |running|
    ensures var victim, rest := running[at], running[..at] + running[at + 1..];
            var cursor' := if at < cursor then cursor - 1 else cursor;
            && VisitsHold(queue, preempted + [victim], rest, cursor', visited, Drop(scheduled, {victim}))
            && (at != cursor ==> cursor' < |rest| && rest[cursor'] == running[cursor] && victim != running[cursor])
            && (at == |running| - 1 ==> Drop(scheduled, {victim}) == scheduled)
  {
    hide Drop, Distinct;
    var victim, gone := running[at], Elements(preempted);
    RemoveAt(running, at, cursor);
    DropTwice(visited, gone, {victim});
    ElementsAppend(preempted, victim);
    Unlisted(scheduled, running, cursor, at);
    if at != cursor {
      CursorStays(running, at, cursor);
    }
    if at == |running| - 1 {
      DropNothing(scheduled, {victim});
    }
  }

  lemma ElementsAppend(s: seq<Request>, x: Request)
    ensures Elements(s + [x]) == Elements(s) + {x}
  {}

  lemma CursorStays(running: seq<Request>, at: nat, cursor: nat)
    requires Distinct(running) && at < |running| && cursor < |running| && at != cursor
    ensures var rest, cursor' := running[..at] + running[at + 1..], if at < cursor then cursor - 1 else cursor;
            cursor' < |rest| && rest[cursor'] == running[cursor] && running[at] != running[cursor]
  {}

  lemma DropAt(s: seq<Request>, at: nat)
    requires Distinct(s) && at < |s|
    ensures s[..at] + s[at + 1..] == Drop(s, {s[at]})
  {
    hide Drop;
    var head, x, tail := s[..at], s[at], s[at + 1..];
    assert s == (head + [x]) + tail;
    assert x !in head && x !in tail;
    DropOnly(x);
    DropAppend(head + [x], tail, {x});
    DropAppend(head, [x], {x});
    DropNothing(head, {x});
    DropNothing(tail, {x});
  }

  lemma DropOnly(x: Request)
    ensures Drop([x], {x}) == []
  {}

  /** Taking one element out of a list without repetitions, seen from a cursor. */
  lemma RemoveAt(s: seq<Request>, at: nat, cursor: nat)
    requires Distinct(s) && at < |s| && cursor <= |s|
    ensures s[..at] + s[at + 1..] == Drop(s, {s[at]})
    ensures Drop(s[..cursor], {s[at]}) == (s[..at] + s[at + 1..])[..if at < cursor then cursor - 1 else cursor]
  {
    hide Drop;
    DropAt(s, at);
    var head := s[..cursor];
    if at < cursor {
      DropAt(head, at);
      assert head[..at] + head[at + 1..] == (s[..at] + s[at + 1..])[..cursor - 1];
    } else {
      DropNothing(head, {s[at]});
    }
  }

  /** What is scheduled lies before the cursor. */
  lemma Unlisted(scheduled: seq<Request>, running: seq<Request>, cursor: nat, at: nat)
    requires Distinct(running) && cursor <= |running| && at < |running|
        && Elements(scheduled) <= Elements(running[..cursor])
    ensures at >= cursor ==> running[at] !in scheduled
    ensures var victim := running[at];
            Elements(Drop(scheduled, {victim})) <= Elements(Drop(running[..cursor], {victim}))
  {
    forall r | r in scheduled ensures r in running[..cursor] {
      assert r in Elements(scheduled);
    }
  }
}
