/** `_SwapDiag`: copies submitted in capped batches to a driver that may reject
    any of them, even after carrying out a part. */
module SwapDispatcher {
  import opened Arithmetic
  import opened Sequences
  import opened CopyEngine
  import opened Registration

  /** What the driver was asked, and its answer. */
  datatype Attempt = Attempt(copies: seq<Copy>, accepted: bool)

  /** The driver decides freely. What it accepts it does, in order; a rejected
      call may leave anything in the bytes it was asked to overwrite. `kind` is
      the kind of memory at an address, 1 the host's and 2 the device's, and
      `rangeStart` where the registered range of it begins, if that is known. */
  class Driver {
    var mem: Memory
    const kind: int -> nat
    const rangeStart: int -> Option<int>
    ghost var log: seq<Attempt>

    constructor (mem: Memory, kind: int -> nat, rangeStart: int -> Option<int>)
      ensures this.mem == mem && this.kind == kind && this.rangeStart == rangeStart && log == []
    {
      this.mem, this.kind, this.rangeStart, log := mem, kind, rangeStart, [];
    }

    method Submit(cs: seq<Copy>) returns (ok: bool)
      modifies this
      ensures ok ==> mem == ApplyAll(old(mem), cs)
      ensures SameOutside(mem, old(mem), cs) && log == old(log) + [Attempt(cs, ok)]
    {
      ok := *;
      log := log + [Attempt(cs, ok)];
      if ok {
        UntouchedOutside(mem, cs);
        mem := ApplyAll(mem, cs);
      } else {
        var before := mem;
        var garbage: Memory := *;
        mem := a => if Written(cs, a) then garbage(a) else before(a);
      }
    }

    method SubmitOne(c: Copy) returns (ok: bool)
      modifies this
      ensures ok ==> mem == Apply(old(mem), c)
      ensures SameOutside(mem, old(mem), [c]) && log == old(log) + [Attempt([c], ok)]
    {
      ok := Submit([c]);
      assert [c][..0] == [];
    }
  }

  // ---- which calls are made ----

  /** The ways to make one copy, in order: by default, with an explicit
      direction between host and device, in two pieces. */
  function Ways(driver: Driver, splitEnabled: bool, c: Copy): seq<seq<Copy>> {
    var explicit := (driver.kind(c.src) == 2 && driver.kind(c.dst) == 1)
                    || (driver.kind(c.src) == 1 && driver.kind(c.dst) == 2);
    [[c]] + (if explicit then [[c]] else []) + (if splitEnabled then Halves(driver, c) else [])
  }

  lemma WaysAre(driver: Driver, splitEnabled: bool, c: Copy)
    ensures var halves := if splitEnabled then Halves(driver, c) else [];
            Ways(driver, splitEnabled, c) ==
            if (driver.kind(c.src) == 2 && driver.kind(c.dst) == 1)
               || (driver.kind(c.src) == 1 && driver.kind(c.dst) == 2) then [[c]] + ([[c]] + halves)
            else [[c]] + halves
  {
    hide Halves;
    var halves := if splitEnabled then Halves(driver, c) else [];
    assert [[c]] + [[c]] + halves == [[c]] + ([[c]] + halves) && [[c]] + [] + halves == [[c]] + halves;
  }

  /** The host bytes are cut where the range of the last one begins, if that is
      another range than the first one's. */
  function Halves(driver: Driver, c: Copy): seq<seq<Copy>> {
    var host := if driver.kind(c.dst) == 1 then c.dst else c.src;
    match (driver.rangeStart(host), driver.rangeStart(host + c.size - 1)) {
      case (Some(first), Some(last)) =>
        var s := last - host;
        if first != last && last != 0 && 0 < s < c.size
        then [[Copy(c.src, c.dst, s), Copy(c.src + s, c.dst + s, c.size - s)]]
        else []
      case _ => []
    }
  }

  /** The ways are tried in order until all pieces of one are accepted. */
  predicate EntryTried(ways: seq<seq<Copy>>, tries: seq<Attempt>, ok: bool)
    decreases |ways|
  {
    if ways == [] then tries == [] && !ok
    else
      var n := |ways[0]|;
      && n <= |tries| && (forall i :: 0 <= i < n ==> tries[i].copies == [ways[0][i]])
      && if forall i :: 0 <= i < n ==> tries[i].accepted then |tries| == n && ok
         else EntryTried(ways[1..], tries[n..], ok)
  }

  /** Every copy of `span` was made, in order. */
  ghost predicate AllMade(driver: Driver, splitEnabled: bool, span: seq<Copy>, tries: seq<Attempt>)
    decreases |span|
  {
    if span == [] then tries == []
    else exists k :: 0 <= k <= |tries| && LastMade(driver, splitEnabled, span, tries, k)
  }

  ghost predicate LastMade(driver: Driver, splitEnabled: bool, span: seq<Copy>, tries: seq<Attempt>, k: int)
    requires span != [] && 0 <= k <= |tries|
    decreases |span|, 0
  {
    && AllMade(driver, splitEnabled, span[..|span| - 1], tries[..k])
    && EntryTried(Ways(driver, splitEnabled, span[|span| - 1]), tries[k..], true)
  }

  /** ... or up to one that is not accepted in any way. */
  ghost predicate RunTried(driver: Driver, splitEnabled: bool, span: seq<Copy>, tries: seq<Attempt>, ok: bool) {
    if ok then AllMade(driver, splitEnabled, span, tries)
    else exists i, k :: 0 <= i < |span| && 0 <= k <= |tries| && StoppedAt(driver, splitEnabled, span, tries, i, k)
  }

  ghost predicate StoppedAt(driver: Driver, splitEnabled: bool, span: seq<Copy>, tries: seq<Attempt>, i: int, k: int)
    requires 0 <= i < |span| && 0 <= k <= |tries|
  {
    AllMade(driver, splitEnabled, span[..i], tries[..k])
    && EntryTried(Ways(driver, splitEnabled, span[i]), tries[k..], false)
  }

  /** The first 48 copies one by one, up to the first that is rejected. */
  predicate Probed(span: seq<Copy>, tries: seq<Attempt>) {
    var n := |tries|;
    && n <= |span| && n <= 48
    && (forall i :: 0 <= i < n ==> tries[i].copies == [span[i]])
    && (forall i :: 0 <= i < n - 1 ==> tries[i].accepted)
    && (n == |span| || n == 48 || (n > 0 && !tries[n - 1].accepted))
  }

  ghost predicate Recovered(driver: Driver, splitEnabled: bool, span: seq<Copy>, tries: seq<Attempt>, ok: bool) {
    exists p :: 0 <= p <= |tries| && Probed(span, tries[..p]) && RunTried(driver, splitEnabled, span, tries[p..], ok)
  }

  /** The calls of a normal dispatch when none is rejected: `cs` in full batches. */
  predicate Batches(cap: nat, cs: seq<Copy>, tries: seq<Attempt>)
    decreases |tries|
  {
    if tries == [] then cs == []
    else
      var last := tries[|tries| - 1].copies;
      && 0 < |last| <= cap && |last| <= |cs| && cs[|cs| - |last|..] == last
      && (forall i :: 0 <= i < |tries| - 1 ==> |tries[i].copies| == cap)
      && Batches(cap, cs[..|cs| - |last|], tries[..|tries| - 1])
  }

  const PROBE_MAX := 48

  class SwapDiag {
    var sticky: bool
    const driver: Driver
    const cap: nat
    const splitEnabled: bool

    constructor (driver: Driver, cap: nat, splitEnabled: bool)
      requires 1 <= cap <= 1024
      ensures !sticky && this.driver == driver && this.cap == cap && this.splitEnabled == splitEnabled
    {
      sticky := false;
      this.driver, this.cap, this.splitEnabled := driver, cap, splitEnabled;
    }

    ghost predicate Ran(log: seq<Attempt>, span: seq<Copy>, ok: bool)
      reads driver
    {
      log <= driver.log && RunTried(driver, splitEnabled, span, driver.log[|log|..], ok)
    }

    /** When it returns normally, memory is as after the copies in their order.
        It does so unless a copy is accepted in no way, and a normal dispatch
        becomes sticky exactly when the driver rejects something. */
    method Dispatch(cs: seq<Copy>) returns (ok: bool)
      requires Apart(cs) && cap > 0
      modifies this, driver
      ensures ok ==> Same(driver.mem, ApplyAll(old(driver.mem), cs))
      ensures SameOutside(driver.mem, old(driver.mem), cs) && old(driver.log) <= driver.log
      ensures old(sticky) ==> sticky && Ran(old(driver.log), cs, ok)
      ensures !old(sticky) && ok ==> (sticky <==> !AllAccepted(driver.log[|old(driver.log)|..]))
      ensures !sticky && ok ==> Batches(cap, cs, driver.log[|old(driver.log)|..])
      ensures !ok ==> GaveUp(driver, splitEnabled, cs)
    {
      hide Progress, GaveUp, RunTried, Batches, AllAccepted, Apart, Same, ApplyAll;
      if sticky {
        ok := RunPerEntry(cs, driver.mem);
        if !ok {
          RunGaveUp(driver, splitEnabled, cs, cs, |old(driver.log)|);
        }
        return;
      }
      ok := DispatchBatches(cs);
      ProgressAtLast(cap, cs, driver.log[|old(driver.log)|..], sticky);
    }

    method DispatchBatches(cs: seq<Copy>) returns (ok: bool)
      requires Apart(cs) && cap > 0 && !sticky
      modifies this, driver
      ensures ok ==> Same(driver.mem, ApplyAll(old(driver.mem), cs))
      ensures SameOutside(driver.mem, old(driver.mem), cs) && old(driver.log) <= driver.log
      ensures ok ==> Progress(cap, cs, |cs|, driver.log[|old(driver.log)|..], sticky)
      ensures !ok ==> GaveUp(driver, splitEnabled, cs)
    {
      hide Progress, GaveUp, Recovered, Apart, SameOutside, Same, ApplyAll;
      var off := 0;
      ProgressAtFirst(cap, cs, driver.mem, driver.log);
      while off < |cs|
        invariant 0 <= off <= |cs| && old(driver.log) <= driver.log
        invariant Same(driver.mem, ApplyAll(old(driver.mem), cs[..off]))
        invariant SameOutside(driver.mem, old(driver.mem), cs)
        invariant Progress(cap, cs, off, driver.log[|old(driver.log)|..], sticky)
      {
        var end := if off + cap < |cs| then off + cap else |cs|;
        var span := cs[off..end];
        ghost var base, log, was := driver.mem, driver.log, sticky;
        SubsetApart(span, cs);
        ok := SubmitOrRecover(span);
        PartOutside(driver.mem, base, span, cs);
        OutsideTwice(driver.mem, base, old(driver.mem), cs);
        if !ok {
          RecoveryGaveUp(driver, splitEnabled, span, cs, |log| + 1);
          return false;
        }
        Advanced(cap, cs, off, end, old(driver.log), log, driver.log, was, sticky);
        SpanDone(cs, off, end, old(driver.mem), base, driver.mem);
        off := end;
      }
      assert cs[..off] == cs;
      ok := true;
    }

    /** One batch, and what follows when it is rejected. */
    method SubmitOrRecover(span: seq<Copy>) returns (ok: bool)
      requires Apart(span)
      modifies this, driver
      ensures ok ==> Same(driver.mem, ApplyAll(old(driver.mem), span))
      ensures SameOutside(driver.mem, old(driver.mem), span)
      ensures (old(driver.log) + [Attempt(span, true)] == driver.log && sticky == old(sticky) && ok)
              || (old(driver.log) + [Attempt(span, false)] <= driver.log && (ok ==> sticky)
                  && Recovered(driver, splitEnabled, span, driver.log[|old(driver.log)| + 1..], ok))
    {
      ghost var base := driver.mem;
      ok := driver.Submit(span);
      if !ok {
        ok := Recover(span, base);
      }
    }

    /** Looks for the culprit one copy at a time, then writes the whole span again. */
    method Recover(span: seq<Copy>, ghost base: Memory) returns (ok: bool)
      requires Apart(span) && SameOutside(driver.mem, base, span)
      modifies this, driver
      ensures ok ==> Same(driver.mem, ApplyAll(base, span)) && sticky
      ensures !ok ==> sticky == old(sticky)
      ensures SameOutside(driver.mem, base, span) && old(driver.log) <= driver.log
      ensures Recovered(driver, splitEnabled, span, driver.log[|old(driver.log)|..], ok)
    {
      ghost var log := driver.log;
      var i := 0;
      var accepted := true;
      while accepted && i < |span| && i < PROBE_MAX
        invariant 0 <= i <= |span| && SameOutside(driver.mem, base, span) && sticky == old(sticky)
        invariant log <= driver.log && ProbedSoFar(span, driver.log[|log|..], i, accepted)
      {
        ghost var before := driver.mem;
        accepted := driver.SubmitOne(span[i]);
        PartOutside(driver.mem, before, [span[i]], span);
        i := i + 1;
      }
      ghost var probed := driver.log;
      ok := RunPerEntry(span, base);
      RecoveredBy(driver, splitEnabled, span, log, probed, driver.log, ok);
      if ok {
        sticky := true;
      }
    }

    /** Every copy on its own, by whichever way the driver accepts it. */
    method RunPerEntry(span: seq<Copy>, ghost base: Memory) returns (ok: bool)
      requires Apart(span) && SameOutside(driver.mem, base, span)
      modifies driver
      ensures ok ==> Same(driver.mem, ApplyAll(base, span))
      ensures SameOutside(driver.mem, base, span) && Ran(old(driver.log), span, ok)
    {
      hide EntryTried, Ways, AllMade;
      ghost var log := driver.log;
      var i := 0;
      MadeNothing(driver, splitEnabled, span);
      assert driver.log[|log|..] == [];
      while i < |span|
        invariant 0 <= i <= |span| && Rewritten(driver.mem, base, span, i) && SameOutside(driver.mem, base, span)
        invariant log <= driver.log && AllMade(driver, splitEnabled, span[..i], driver.log[|log|..])
      {
        ghost var before, tried := driver.mem, driver.log;
        SubsetApart([span[i]], span);
        var done := CopyEntry(span[i]);
        PartOutside(driver.mem, before, [span[i]], span);
        MadeOneMore(driver, splitEnabled, span, i, log, tried, driver.log, done);
        if !done {
          return false;
        }
        RewriteStep(before, driver.mem, base, span, i);
        i := i + 1;
      }
      RewriteDone(driver.mem, base, span);
      assert span[..i] == span;
      ok := true;
    }

    /** The default copy, then one with an explicit direction, then two halves. */
    method CopyEntry(c: Copy) returns (ok: bool)
      requires Apart([c])
      modifies driver
      ensures ok ==> Same(driver.mem, Apply(old(driver.mem), c))
      ensures SameOutside(driver.mem, old(driver.mem), [c]) && old(driver.log) <= driver.log
      ensures EntryTried(Ways(driver, splitEnabled, c), driver.log[|old(driver.log)|..], ok)
    {
      hide Apply, Apart, SameOutside, Same, EntryTried, Halves, Ways;
      WaysAre(driver, splitEnabled, c);
      ghost var log, m := driver.log, driver.mem;
      ghost var halves := if splitEnabled then Halves(driver, c) else [];
      ok := driver.SubmitOne(c);
      if ok {
        SameAsIs(driver.mem);
        FirstAccepted(c, Ways(driver, splitEnabled, c), log, driver.log);
        return;
      }
      ghost var first := driver.log;
      var srcKind, dstKind := driver.kind(c.src), driver.kind(c.dst);
      if (srcKind == 2 && dstKind == 1) || (srcKind == 1 && dstKind == 2) {
        ghost var spoiled := driver.mem;
        ok := driver.SubmitOne(c);
        OutsideTwice(driver.mem, spoiled, m, [c]);
        if ok {
          SameAsIs(driver.mem);
          RetryRepairs(m, spoiled, c);
          FirstAccepted(c, [[c]] + halves, first, driver.log);
          FirstRejected(c, [[c]] + halves, log, first, driver.log, true);
          return;
        }
      }
      ghost var second := driver.log;
      ok := SplitRetry(c, dstKind == 1, m);
      if |second| > |first| {
        FirstRejected(c, halves, first, second, driver.log, ok);
        FirstRejected(c, [[c]] + halves, log, first, driver.log, ok);
      } else {
        FirstRejected(c, halves, log, first, driver.log, ok);
      }
    }

    /** Two pieces, cut where the driver says a registered range starts. */
    method SplitRetry(c: Copy, hostIsDst: bool, ghost m: Memory) returns (ok: bool)
      requires Apart([c]) && SameOutside(driver.mem, m, [c]) && (hostIsDst <==> driver.kind(c.dst) == 1)
      modifies driver
      ensures ok ==> Same(driver.mem, Apply(m, c))
      ensures SameOutside(driver.mem, m, [c]) && old(driver.log) <= driver.log
      ensures EntryTried(if splitEnabled then Halves(driver, c) else [], driver.log[|old(driver.log)|..], ok)
    {
      var host := if hostIsDst then c.dst else c.src;
      var first := driver.rangeStart(host);
      var last := driver.rangeStart(host + c.size - 1);
      if first.None? || last.None? || first == last || last.value == 0 || !splitEnabled {
        return false;
      }
      var boundary := last.value;
      var s1 := boundary - host;
      var s2 := c.size - s1;
      if s1 <= 0 || s2 <= 0 {
        return false;
      }
      var one := Copy(c.src, c.dst, s1);
      var two := if hostIsDst then Copy(c.src + s1, boundary, s2) else Copy(boundary, c.dst + s1, s2);
      ghost var spoiled := driver.mem;
      ok := CopyPieces(c, one, two);
      PiecesTried(one, two, driver.log[|old(driver.log)|..], ok);
      OutsideTwice(driver.mem, spoiled, m, [c]);
      if ok {
        RetryRepairs(m, spoiled, c);
      }
    }

    /** Both pieces are submitted even when the first is rejected. */
    method CopyPieces(ghost c: Copy, one: Copy, two: Copy) returns (ok: bool)
      requires Apart([c]) && one.size <= c.size && one == Copy(c.src, c.dst, one.size)
      requires two == Copy(c.src + one.size, c.dst + one.size, c.size - one.size)
      modifies driver
      ensures ok ==> Same(driver.mem, Apply(old(driver.mem), c))
      ensures SameOutside(driver.mem, old(driver.mem), [c])
      ensures exists ok1, ok2 :: ok == (ok1 && ok2)
                                 && driver.log == old(driver.log) + [Attempt([one], ok1), Attempt([two], ok2)]
    {
      hide SameOutside, Apply, Apart;
      var ok1 := driver.SubmitOne(one);
      PieceOutside(driver.mem, old(driver.mem), one, c);
      ghost var middle := driver.mem;
      var ok2 := driver.SubmitOne(two);
      PieceOutside(driver.mem, middle, two, c);
      OutsideTwice(driver.mem, middle, old(driver.mem), [c]);
      TwoPieces(old(driver.mem), c, one.size);
      ok := ok1 && ok2;
    }
  }

  // ---- facts about the calls ----

  predicate AllAccepted(tries: seq<Attempt>) {
    forall i :: 0 <= i < |tries| ==> tries[i].accepted
  }

  /** The last calls are those of a copy that is accepted in no way. */
  ghost predicate GaveUp(driver: Driver, splitEnabled: bool, cs: seq<Copy>)
    reads driver
  {
    exists c, k :: c in cs && 0 <= k <= |driver.log|
                   && EntryTried(Ways(driver, splitEnabled, c), driver.log[k..], false)
  }

  /** A normal dispatch that has gone through the first `off` copies. */
  ghost predicate Progress(cap: nat, cs: seq<Copy>, off: nat, tries: seq<Attempt>, sticky: bool) {
    && off <= |cs| && (sticky <==> !AllAccepted(tries))
    && (!sticky ==>
          Batches(cap, cs[..off], tries)
          && (off < |cs| ==> forall i :: 0 <= i < |tries| ==> |tries[i].copies| == cap))
  }

  ghost predicate ProbedSoFar(span: seq<Copy>, tries: seq<Attempt>, i: nat, accepted: bool) {
    && |tries| == i <= |span| && i <= PROBE_MAX
    && (forall j :: 0 <= j < i ==> tries[j].copies == [span[j]] && (j < i - 1 || accepted ==> tries[j].accepted))
    && (!accepted ==> i > 0 && !tries[i - 1].accepted)
  }

  lemma SameAsIs(m: Memory)
    ensures Same(m, m)
  {}

  lemma FirstAccepted(c: Copy, ways: seq<seq<Copy>>, log: seq<Attempt>, after: seq<Attempt>)
    requires ways != [] && ways[0] == [c] && after == log + [Attempt([c], true)]
    ensures EntryTried(ways, after[|log|..], true)
  {
    assert after[|log|..] == [Attempt([c], true)];
  }

  lemma FirstRejected(c: Copy, rest: seq<seq<Copy>>, log: seq<Attempt>, first: seq<Attempt>, after: seq<Attempt>,
                      ok: bool)
    requires first == log + [Attempt([c], false)] && first <= after && EntryTried(rest, after[|first|..], ok)
    ensures EntryTried([[c]] + rest, after[|log|..], ok)
  {
    var tries := after[|log|..];
    assert ([[c]] + rest)[1..] == rest && tries[1..] == after[|first|..];
    assert tries[0] == first[|log|] == Attempt([c], false);
  }

  lemma PiecesTried(one: Copy, two: Copy, tries: seq<Attempt>, ok: bool)
    requires |tries| == 2 && tries[0].copies == [one] && tries[1].copies == [two]
    requires ok == (tries[0].accepted && tries[1].accepted)
    ensures EntryTried([[one, two]], tries, ok)
  {
    assert [[one, two]][1..] == [] && tries[2..] == [];
    assert EntryTried([], [], false);
  }

  lemma MadeOneMore(driver: Driver, splitEnabled: bool, span: seq<Copy>, i: nat, log: seq<Attempt>, tried: seq<Attempt>,
                    after: seq<Attempt>, done: bool)
    requires i < |span| && log <= tried <= after
    requires AllMade(driver, splitEnabled, span[..i], tried[|log|..])
    requires EntryTried(Ways(driver, splitEnabled, span[i]), after[|tried|..], done)
    ensures if done then AllMade(driver, splitEnabled, span[..i + 1], after[|log|..])
            else RunTried(driver, splitEnabled, span, after[|log|..], false)
  {
    var tries, k := after[|log|..], |tried| - |log|;
    assert tries[..k] == tried[|log|..] && tries[k..] == after[|tried|..];
    if done {
      assert span[..i + 1][..i] == span[..i];
      assert LastMade(driver, splitEnabled, span[..i + 1], tries, k);
    } else {
      assert StoppedAt(driver, splitEnabled, span, tries, i, k);
    }
  }

  lemma RecoveredBy(driver: Driver, splitEnabled: bool, span: seq<Copy>, log: seq<Attempt>, probed: seq<Attempt>,
                    after: seq<Attempt>, ok: bool)
    requires log <= probed <= after && Probed(span, probed[|log|..])
    requires RunTried(driver, splitEnabled, span, after[|probed|..], ok)
    ensures Recovered(driver, splitEnabled, span, after[|log|..], ok)
  {
    var tries, p := after[|log|..], |probed| - |log|;
    assert tries[..p] == probed[|log|..] && tries[p..] == after[|probed|..];
  }

  lemma RunGaveUp(driver: Driver, splitEnabled: bool, span: seq<Copy>, cs: seq<Copy>, n: nat)
    requires n <= |driver.log| && RunTried(driver, splitEnabled, span, driver.log[n..], false)
    requires forall c :: c in span ==> c in cs
    ensures GaveUp(driver, splitEnabled, cs)
  {
    hide EntryTried, Ways, AllMade;
    var tries := driver.log[n..];
    var i, k :| 0 <= i < |span| && 0 <= k <= |tries| && StoppedAt(driver, splitEnabled, span, tries, i, k);
    assert tries[k..] == driver.log[n + k..];
    assert span[i] in cs;
  }

  lemma RecoveryGaveUp(driver: Driver, splitEnabled: bool, span: seq<Copy>, cs: seq<Copy>, n: nat)
    requires n <= |driver.log| && Recovered(driver, splitEnabled, span, driver.log[n..], false)
    requires forall c :: c in span ==> c in cs
    ensures GaveUp(driver, splitEnabled, cs)
  {
    hide RunTried, Probed;
    var tries := driver.log[n..];
    var p :| 0 <= p <= |tries| && Probed(span, tries[..p]) && RunTried(driver, splitEnabled, span, tries[p..], false);
    assert tries[p..] == driver.log[n + p..];
    RunGaveUp(driver, splitEnabled, span, cs, n + p);
  }

  lemma Advanced(cap: nat, cs: seq<Copy>, off: nat, end: nat, log: seq<Attempt>, before: seq<Attempt>,
                 after: seq<Attempt>, was: bool, sticky: bool)
    requires log <= before <= after && Progress(cap, cs, off, before[|log|..], was) && off < |cs| && cap > 0
    requires end == if off + cap < |cs| then off + cap else |cs|
    requires (after == before + [Attempt(cs[off..end], true)] && sticky == was)
             || (before + [Attempt(cs[off..end], false)] <= after && sticky)
    ensures Progress(cap, cs, end, after[|log|..], sticky)
  {
    var tries, all := before[|log|..], after[|log|..];
    if sticky && after != before + [Attempt(cs[off..end], true)] {
      assert !all[|tries|].accepted;
    } else {
      assert all[..|tries|] == tries && all[|all| - 1] == Attempt(cs[off..end], true);
      assert cs[..end][off..] == cs[off..end] && cs[..end][..off] == cs[..off];
      assert was ==> exists i :: 0 <= i < |tries| && !all[i].accepted;
    }
  }

  lemma ProgressAtFirst(cap: nat, cs: seq<Copy>, m: Memory, log: seq<Attempt>)
    ensures Progress(cap, cs, 0, log[|log|..], false) && Same(m, ApplyAll(m, cs[..0])) && SameOutside(m, m, cs)
  {}

  lemma ProgressAtLast(cap: nat, cs: seq<Copy>, tries: seq<Attempt>, sticky: bool)
    ensures Progress(cap, cs, |cs|, tries, sticky) ==>
              (sticky <==> !AllAccepted(tries)) && (!sticky ==> Batches(cap, cs, tries))
  {
    assert cs[..|cs|] == cs;
  }

  lemma SpanDone(cs: seq<Copy>, off: nat, end: nat, m: Memory, base: Memory, after: Memory)
    requires off <= end <= |cs| && Same(base, ApplyAll(m, cs[..off])) && Same(after, ApplyAll(base, cs[off..end]))
    ensures Same(after, ApplyAll(m, cs[..end]))
  {
    assert cs[..end] == cs[..off] + cs[off..end];
    ApplyAllAppend(m, cs[..off], cs[off..end]);
    SameAfter(base, ApplyAll(m, cs[..off]), cs[off..end]);
  }

  lemma MadeNothing(driver: Driver, splitEnabled: bool, span: seq<Copy>)
    ensures AllMade(driver, splitEnabled, span[..0], [])
  {}

  lemma OutsideTwice(m1: Memory, m2: Memory, m3: Memory, cs: seq<Copy>)
    requires SameOutside(m1, m2, cs) && SameOutside(m2, m3, cs)
    ensures SameOutside(m1, m3, cs)
  {}

  lemma PieceOutside(m1: Memory, m2: Memory, piece: Copy, c: Copy)
    requires SameOutside(m1, m2, [piece])
    requires c.dst <= piece.dst && piece.dst + piece.size <= c.dst + c.size
    ensures SameOutside(m1, m2, [c])
  {
    forall a: int | !Written([c], a) ensures m1(a) == m2(a) {
      assert c in [c];
      assert !Written([piece], a);
    }
  }

  // ---- when cutting at one seam is enough ----

  /** The driver knows the registered ranges of the region at `base`. */
  ghost predicate Knows(driver: Driver, ranges: seq<Range>, base: nat) {
    forall i, x :: 0 <= i < |ranges| && ranges[i].Has(x) ==>
      driver.kind(base + x) == 1 && driver.rangeStart(base + x) == Some(base + ranges[i].start)
  }

  function HostAt(driver: Driver, c: Copy): int {
    if driver.kind(c.dst) == 1 then c.dst else c.src
  }

  ghost predicate OneRange(ranges: seq<Range>, at: int, size: nat) {
    exists i :: 0 <= i < |ranges| && ranges[i].Has(at) && ranges[i].Has(at + size - 1)
  }

  /** It takes a call exactly when each copy's host bytes lie in one range. */
  ghost predicate Obeys(driver: Driver, ranges: seq<Range>, base: nat, tries: seq<Attempt>) {
    forall k :: 0 <= k < |tries| ==>
      (tries[k].accepted <==> forall c :: c in tries[k].copies ==> OneRange(ranges, HostAt(driver, c) - base, c.size))
  }

  /** A copy between the device and the region. */
  ghost predicate HostCopy(driver: Driver, base: nat, total: nat, c: Copy) {
    && c.size > 0 && base <= HostAt(driver, c) && HostAt(driver, c) + c.size <= base + total
    && (driver.kind(c.dst) != 1 ==> forall y :: c.dst <= y < c.dst + c.size ==> driver.kind(y) != 1)
  }

  /** Range `k` begins inside the copied bytes. */
  predicate SeamInside(ranges: seq<Range>, at: int, size: nat, k: int) {
    0 < k < |ranges| && at < ranges[k].start < at + size
  }

  ghost predicate AtMostOneSeam(ranges: seq<Range>, at: int, size: nat) {
    forall a, b :: SeamInside(ranges, at, size, a) && SeamInside(ranges, at, size, b) ==> a == b
  }

  /** The seams inside a copy are those between the ranges of its ends. */
  lemma EndRanges(ranges: seq<Range>, total: nat, at: nat, size: nat) returns (i: nat, j: nat)
    requires Tiles(ranges, total) && size > 0 && at + size <= total
    ensures i <= j < |ranges| && ranges[i].Has(at) && ranges[j].Has(at + size - 1)
    ensures forall k :: SeamInside(ranges, at, size, k) <==> i < k <= j
  {
    TilesCoverOnce(ranges, total, at);
    TilesCoverOnce(ranges, total, at + size - 1);
    i :| 0 <= i < |ranges| && ranges[i].Has(at);
    j :| 0 <= j < |ranges| && ranges[j].Has(at + size - 1);
    forall k: nat, l: nat | k < l < |ranges| ensures ranges[k].start + ranges[k].size <= ranges[l].start {
      TilesOrder(ranges, total, k, l);
    }
  }

  lemma OneRangeIff(ranges: seq<Range>, total: nat, at: nat, size: nat, i: nat, j: nat)
    requires Tiles(ranges, total) && i < |ranges| && j < |ranges| && ranges[i].Has(at) && ranges[j].Has(at + size - 1)
    ensures OneRange(ranges, at, size) <==> i == j
  {
    TilesCoverOnce(ranges, total, at);
    TilesCoverOnce(ranges, total, at + size - 1);
  }

  lemma SeamsBetween(ranges: seq<Range>, total: nat, at: nat, size: nat) returns (i: nat, j: nat)
    requires Tiles(ranges, total) && size > 0 && at + size <= total
    ensures i <= j < |ranges| && ranges[i].Has(at) && ranges[j].Has(at + size - 1)
    ensures OneRange(ranges, at, size) <==> i == j
    ensures AtMostOneSeam(ranges, at, size) <==> j <= i + 1
  {
    i, j := EndRanges(ranges, total, at, size);
    OneRangeIff(ranges, total, at, size, i, j);
    hide Tiles, OneRange, SeamInside;
    if i < j {
      assert SeamInside(ranges, at, size, i + 1) && SeamInside(ranges, at, size, j);
    }
  }

  /** What is tried for a copy across at least one seam, after the ways in one
      piece: a cut at the last seam. */
  lemma HalvesAre(driver: Driver, ranges: seq<Range>, total: nat, base: nat, c: Copy, i: nat, j: nat)
    requires Knows(driver, ranges, base) && Tiles(ranges, total) && HostCopy(driver, base, total, c)
    requires i < j < |ranges| && ranges[i].Has(HostAt(driver, c) - base)
    requires ranges[j].Has(HostAt(driver, c) - base + c.size - 1)
    ensures var s := ranges[j].start - (HostAt(driver, c) - base);
            && 0 < s < c.size
            && Halves(driver, c) == [[Copy(c.src, c.dst, s), Copy(c.src + s, c.dst + s, c.size - s)]]
            && HostAt(driver, Copy(c.src, c.dst, s)) == HostAt(driver, c)
            && HostAt(driver, Copy(c.src + s, c.dst + s, c.size - s)) == HostAt(driver, c) + s
  {
    TilesOrder(ranges, total, i, j);
    TilesApart(ranges, total);
    var x, s := HostAt(driver, c) - base, ranges[j].start - (HostAt(driver, c) - base);
    assert ranges[j].Has(ranges[j].start) && x + s == ranges[j].start;
    assert driver.rangeStart(base + x) == Some(base + ranges[i].start);
    assert driver.rangeStart(base + (x + c.size - 1)) == Some(base + ranges[j].start);
    assert driver.kind(base + ranges[j].start) == 1;
  }

  /** With such a driver a single copy is made in some way exactly when it
      crosses at most one seam. */
  lemma EntryMadeIff(driver: Driver, ranges: seq<Range>, total: nat, base: nat, c: Copy, tries: seq<Attempt>, ok: bool)
    requires Knows(driver, ranges, base) && Tiles(ranges, total) && HostCopy(driver, base, total, c)
    requires Obeys(driver, ranges, base, tries) && EntryTried(Ways(driver, true, c), tries, ok)
    ensures ok <==> AtMostOneSeam(ranges, HostAt(driver, c) - base, c.size)
  {
    hide Knows, Tiles, HostCopy, HostAt, AtMostOneSeam, Halves, SeamInside, Ways, OneRange, EntryTried, Obeys;
    HostInside(driver, base, total, c);
    var i, j := SeamsBetween(ranges, total, HostAt(driver, c) - base, c.size);
    if i == j {
      WholeAccepted(driver, ranges, base, c, tries, ok);
    } else {
      var whole := WholeRejected(driver, ranges, base, c, tries, ok);
      HalvesMadeIff(driver, ranges, total, base, c, i, j, tries[whole..], ok);
    }
  }

  lemma HostInside(driver: Driver, base: nat, total: nat, c: Copy)
    requires HostCopy(driver, base, total, c)
    ensures c.size > 0 && base <= HostAt(driver, c) && HostAt(driver, c) + c.size <= base + total
  {}

  lemma WholeAccepted(driver: Driver, ranges: seq<Range>, base: nat, c: Copy, tries: seq<Attempt>, ok: bool)
    requires Obeys(driver, ranges, base, tries) && EntryTried(Ways(driver, true, c), tries, ok)
    requires OneRange(ranges, HostAt(driver, c) - base, c.size)
    ensures ok
  {
    hide OneRange, Halves;
    assert Ways(driver, true, c)[0] == [c] && tries[0].accepted;
  }

  /** A copy that is in no single range is rejected as a whole, however it is asked for. */
  lemma WholeRejected(driver: Driver, ranges: seq<Range>, base: nat, c: Copy, tries: seq<Attempt>, ok: bool)
    returns (whole: nat)
    requires Obeys(driver, ranges, base, tries) && EntryTried(Ways(driver, true, c), tries, ok)
    requires !OneRange(ranges, HostAt(driver, c) - base, c.size)
    ensures whole <= |tries| && Obeys(driver, ranges, base, tries[whole..])
    ensures EntryTried(Halves(driver, c), tries[whole..], ok)
  {
    hide Halves, OneRange;
    var ways := Ways(driver, true, c);
    assert ways[0] == [c] && !tries[0].accepted;
    assert EntryTried(ways[1..], tries[1..], ok);
    whole := |ways| - |Halves(driver, c)|;
    if whole == 2 {
      assert ways[1..][0] == [c] && tries[1..][0] == tries[1] && !tries[1].accepted;
      assert ways[1..][1..] == ways[2..] == Halves(driver, c) && tries[1..][1..] == tries[2..];
    } else {
      assert ways[1..] == Halves(driver, c);
    }
  }

  lemma HalvesMadeIff(driver: Driver, ranges: seq<Range>, total: nat, base: nat, c: Copy, i: nat, j: nat,
                      tries: seq<Attempt>, ok: bool)
    requires Knows(driver, ranges, base) && Tiles(ranges, total) && HostCopy(driver, base, total, c)
    requires i < j < |ranges| && ranges[i].Has(HostAt(driver, c) - base)
    requires ranges[j].Has(HostAt(driver, c) - base + c.size - 1)
    requires Obeys(driver, ranges, base, tries) && EntryTried(Halves(driver, c), tries, ok)
    ensures ok <==> j == i + 1
  {
    hide Knows, Tiles, HostCopy, HostAt, Halves, OneRange;
    HostInside(driver, base, total, c);
    HalvesAre(driver, ranges, total, base, c, i, j);
    var x, s := HostAt(driver, c) - base, ranges[j].start - (HostAt(driver, c) - base);
    var one, two := Copy(c.src, c.dst, s), Copy(c.src + s, c.dst + s, c.size - s);
    PiecesFit(ranges, total, x, s, c.size, i, j);
    assert tries[0].copies == [one] && tries[1].copies == [two];
    assert tries[0].accepted <==> j == i + 1;
    assert tries[1].accepted;
    assert [[one, two]][1..] == [];
  }

  lemma PiecesFit(ranges: seq<Range>, total: nat, x: nat, s: nat, size: nat, i: nat, j: nat)
    requires Tiles(ranges, total) && i < j < |ranges| && ranges[i].Has(x) && ranges[j].Has(x + size - 1)
    requires x + s == ranges[j].start && 0 < s < size && x + size <= total
    ensures OneRange(ranges, x, s) <==> j == i + 1
    ensures OneRange(ranges, x + s, size - s)
  {
    var a, b := SeamsBetween(ranges, total, x, s);
    TilesApart(ranges, total);
    TilesCoverOnce(ranges, total, x);
    assert a == i;
    TilesCoverOnce(ranges, total, x + s - 1);
    assert ranges[j - 1 + 1].start == ranges[j - 1].start + ranges[j - 1].size;
    assert ranges[j - 1].Has(x + s - 1);
    assert b == j - 1;
    assert ranges[j].Has(x + s);
  }

  /** Ranges that begin at the multiples of a chunk: a copy not longer than the
      chunk crosses at most one seam. */
  lemma ShortCopyOneSeam(ranges: seq<Range>, chunk: nat, at: int, size: nat)
    requires ChunkStarts(ranges, chunk) && size <= chunk
    ensures AtMostOneSeam(ranges, at, size)
  {
    forall a, b | SeamInside(ranges, at, size, a) && SeamInside(ranges, at, size, b) ensures a == b {
      if a < b {
        MulMonotone(a + 1, b, chunk);
        MulAdd(a, 1, chunk);
      } else if b < a {
        MulMonotone(b + 1, a, chunk);
        MulAdd(b, 1, chunk);
      }
    }
  }

  /** So with the ranges of a pinned region the dispatcher never gives up on copies
      that are not longer than its chunk. */
  lemma NeverGivesUp(driver: Driver, ranges: seq<Range>, total: nat, base: nat, chunk: nat, cs: seq<Copy>)
    requires Knows(driver, ranges, base) && Tiles(ranges, total) && ChunkStarts(ranges, chunk)
    requires forall c :: c in cs ==> HostCopy(driver, base, total, c) && c.size <= chunk
    requires Obeys(driver, ranges, base, driver.log)
    ensures !GaveUp(driver, true, cs)
  {
    hide Knows, Tiles, ChunkStarts, EntryTried, Ways, OneRange;
    if c, k :| c in cs && 0 <= k <= |driver.log| && EntryTried(Ways(driver, true, c), driver.log[k..], false) {
      ShortCopyOneSeam(ranges, chunk, HostAt(driver, c) - base, c.size);
      EntryMadeIff(driver, ranges, total, base, c, driver.log[k..], false);
    }
  }
}
