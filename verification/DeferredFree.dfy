/** Blocks go back to the pool only when no step under way can still write them. */
module DeferredFree {
  import opened Sequences

  type Req = nat
  type BlockId = nat

  /** Blocks that wait until step `fence` is processed. */
  datatype Entry = Entry(fence: nat, blocks: seq<BlockId>)

  lemma {:induction false} ReverseTwice<T>(s: seq<T>)
    ensures Reverse(Reverse(s)) == s
  {
    assert forall i :: 0 <= i < |s| ==> Reverse(Reverse(s))[i] == Reverse(s)[|s| - 1 - i] == s[i];
  }

  /** Everything in the entries, in the order it is given back. */
  function Returned(entries: seq<Entry>): seq<BlockId> {
    if entries == [] then []
    else Returned(entries[..|entries| - 1]) + Reverse(entries[|entries| - 1].blocks)
  }

  lemma NothingReturned()
    ensures forall entries: seq<Entry> :: Returned(entries[..0]) == []
  {}

  lemma ReturnedOneMore(entries: seq<Entry>, k: nat)
    requires k < |entries|
    ensures Returned(entries[..k + 1]) == Returned(entries[..k]) + Reverse(entries[k].blocks)
  {
    assert entries[..k + 1][..k] == entries[..k];
  }

  /** A later entry has a fence that is at most one lower. */
  ghost predicate OneApart(entries: seq<Entry>) {
    forall i, j :: 0 <= i < j < |entries| ==> entries[i].fence <= entries[j].fence + 1
  }

  /** Every entry waits behind its last write, and the oldest one has to wait. */
  ghost predicate QueueHolds(entries: seq<Entry>, writes: seq<nat>, scheduled: nat, processed: nat) {
    && |writes| == |entries| && OneApart(entries)
    && (forall i :: 0 <= i < |entries| ==>
          writes[i] <= entries[i].fence && processed <= entries[i].fence <= scheduled + 1)
    && (entries != [] ==> processed < entries[0].fence)
  }

  class StepFences {
    const deferBlockFree: bool
    var schedStepSeq: nat
    var processedStepSeq: nat
    var lastSchedSeq: map<Req, nat>
    var held: map<Req, seq<BlockId>>
    var deferredFrees: seq<Entry>
    /** For each entry, the last step that may write its blocks. */
    ghost var lastWrite: seq<nat>

    /** Fences are at most one out of order, no entry waits longer than until
        the step after its fence is processed, and none is freed too early. */
    ghost predicate Valid()
      reads this
    {
      && processedStepSeq <= schedStepSeq
      && lastSchedSeq.Keys == held.Keys
      && (forall r :: r in lastSchedSeq ==> lastSchedSeq[r] <= schedStepSeq)
      && QueueHolds(deferredFrees, lastWrite, schedStepSeq, processedStepSeq)
      && (!deferBlockFree ==> deferredFrees == [])
    }

    constructor (deferBlockFree: bool)
      ensures Valid() && this.deferBlockFree == deferBlockFree && deferredFrees == [] && held == map[]
    {
      this.deferBlockFree := deferBlockFree;
      schedStepSeq, processedStepSeq, lastSchedSeq, held := 0, 0, map[], map[];
      deferredFrees, lastWrite := [], [];
    }

    method AddRequest(r: Req)
      requires Valid() && r !in held
      modifies this`held, this`lastSchedSeq
      ensures Valid() && held == old(held)[r := []] && lastSchedSeq == old(lastSchedSeq)[r := 0]
    {
      held, lastSchedSeq := held[r := []], lastSchedSeq[r := 0];
    }

    method Allocate(r: Req, blocks: seq<BlockId>)
      requires Valid() && r in held
      modifies this`held
      ensures Valid() && held == old(held)[r := old(held)[r] + blocks]
    {
      held := held[r := held[r] + blocks];
    }

    /** A step that schedules `reqs`; a step without requests gets no number. */
    method ScheduleStep(reqs: set<Req>)
      requires Valid() && reqs <= held.Keys
      modifies this`schedStepSeq, this`lastSchedSeq
      ensures Valid()
      ensures schedStepSeq == old(schedStepSeq) + if deferBlockFree && reqs != {} then 1 else 0
      ensures forall r :: r in lastSchedSeq ==>
                lastSchedSeq[r] == if deferBlockFree && r in reqs then schedStepSeq else old(lastSchedSeq)[r]
    {
      if deferBlockFree && reqs != {} {
        schedStepSeq := schedStepSeq + 1;
        lastSchedSeq := map r | r in lastSchedSeq :: if r in reqs then schedStepSeq else lastSchedSeq[r];
      }
    }

    /** `_free_request_blocks`: what is returned here and now was last written
        by a step that is processed; the rest waits for its fence. */
    method FreeRequestBlocks(r: Req) returns (freed: seq<BlockId>)
      requires Valid() && r in held
      modifies this`held, this`deferredFrees, this`lastWrite
      ensures Valid() && held == old(held)[r := []]
      ensures var now := !deferBlockFree || lastSchedSeq[r] <= processedStepSeq;
              && (now ==> freed == Reverse(old(held)[r]) && deferredFrees == old(deferredFrees))
              && (!now ==> freed == [])
              && (!now && old(held)[r] == [] ==> deferredFrees == old(deferredFrees))
              && (!now && old(held)[r] != [] ==>
                    && deferredFrees == old(deferredFrees) + [Entry(schedStepSeq, old(held)[r])]
                    && lastWrite == old(lastWrite) + [lastSchedSeq[r]])
    {
      var blocks, last := held[r], lastSchedSeq[r];
      held := held[r := []];
      if !deferBlockFree || last <= processedStepSeq {
        return Reverse(blocks);
      }
      if blocks != [] {
        deferredFrees, lastWrite := deferredFrees + [Entry(schedStepSeq, blocks)], lastWrite + [last];
      }
      freed := [];
    }

    /** `_free_cow_retained_blocks`: the copies run in the next numbered step. */
    method FreeCowRetainedBlocks(blocks: seq<BlockId>) returns (freed: seq<BlockId>)
      requires Valid()
      modifies this`deferredFrees, this`lastWrite
      ensures Valid()
      ensures !deferBlockFree ==> freed == blocks && deferredFrees == old(deferredFrees)
      ensures deferBlockFree ==>
        && freed == [] && deferredFrees == old(deferredFrees) + [Entry(schedStepSeq + 1, Reverse(blocks))]
        && lastWrite == old(lastWrite) + [schedStepSeq + 1]
    {
      var fence := schedStepSeq + 1;
      if !deferBlockFree || fence <= processedStepSeq {
        return blocks;
      }
      deferredFrees, lastWrite := deferredFrees + [Entry(fence, Reverse(blocks))], lastWrite + [fence];
      freed := [];
    }

    /** The output of the next numbered step: the longest run of satisfied
        entries leaves the queue, oldest first. */
    method ProcessStep() returns (freed: seq<BlockId>)
      requires Valid() && deferBlockFree && processedStepSeq < schedStepSeq
      modifies this`processedStepSeq, this`deferredFrees, this`lastWrite
      ensures Valid() && processedStepSeq == old(processedStepSeq) + 1
      ensures exists k :: DrainedTo(k, old(deferredFrees), old(lastWrite), deferredFrees, lastWrite, processedStepSeq)
                          && freed == Returned(old(deferredFrees)[..k])
    {
      hide OneApart, Returned, Reverse, QueueHolds, DrainedTo;
      NothingReturned();
      QueueSizes(deferredFrees, lastWrite, schedStepSeq, processedStepSeq);
      processedStepSeq := processedStepSeq + 1;
      freed := [];
      ghost var k := 0;
      while deferredFrees != []
        invariant 0 <= k <= |old(deferredFrees)|
        invariant |old(lastWrite)| == |old(deferredFrees)|
        invariant deferredFrees == old(deferredFrees)[k..] && lastWrite == old(lastWrite)[k..]
        invariant freed == Returned(old(deferredFrees)[..k])
        invariant forall i :: 0 <= i < k ==> old(deferredFrees)[i].fence <= processedStepSeq
        decreases |deferredFrees|
        modifies this`deferredFrees, this`lastWrite
      {
        if deferredFrees[0].fence > processedStepSeq {
          break;
        }
        ReturnedOneMore(old(deferredFrees), k);
        freed := freed + Reverse(deferredFrees[0].blocks);
        deferredFrees, lastWrite, k := deferredFrees[1..], lastWrite[1..], k + 1;
      }
      Drained(k, old(deferredFrees), old(lastWrite), schedStepSeq, processedStepSeq);
    }
  }

  /** The first `k` entries left: no step that may write them is unprocessed.
      Those that stay begin with one whose fence is still ahead. */
  ghost predicate DrainedTo(k: int, entries: seq<Entry>, writes: seq<nat>, after: seq<Entry>, writesAfter: seq<nat>,
                            processed: nat) {
    && 0 <= k <= |entries| == |writes| && after == entries[k..] && writesAfter == writes[k..]
    && (forall i :: 0 <= i < k ==> writes[i] <= processed && entries[i].fence <= processed)
    && (after != [] ==> after[0].fence > processed)
  }

  lemma QueueSizes(entries: seq<Entry>, writes: seq<nat>, scheduled: nat, processed: nat)
    requires QueueHolds(entries, writes, scheduled, processed)
    ensures |writes| == |entries|
  {}

  lemma Drained(k: nat, entries: seq<Entry>, writes: seq<nat>, scheduled: nat, processed: nat)
    requires 0 < processed <= scheduled && QueueHolds(entries, writes, scheduled, processed - 1) && k <= |entries|
    requires forall i :: 0 <= i < k ==> entries[i].fence <= processed
    requires k < |entries| ==> entries[k].fence > processed
    ensures QueueHolds(entries[k..], writes[k..], scheduled, processed)
    ensures DrainedTo(k, entries, writes, entries[k..], writes[k..], processed)
  {}

  /** A processed step releases an entry exactly when it reaches the fences of
      that entry and of all before it. */
  lemma ReleasedIff(k: int, entries: seq<Entry>, writes: seq<nat>, after: seq<Entry>, writesAfter: seq<nat>,
                    processed: nat, i: nat)
    requires DrainedTo(k, entries, writes, after, writesAfter, processed) && i < |entries|
    ensures i < k <==> forall j :: 0 <= j <= i ==> entries[j].fence <= processed
    ensures i < k ==> forall b :: b in entries[i].blocks ==> b in Returned(entries[..k])
  {
    if i < k {
      BlocksReturned(entries[..k], i);
    } else {
      assert after[0] == entries[k];
    }
  }

  lemma {:induction false} BlocksReturned(entries: seq<Entry>, i: nat)
    requires i < |entries|
    ensures forall b :: b in entries[i].blocks ==> b in Returned(entries)
  {
    var last := |entries| - 1;
    if i < last {
      BlocksReturned(entries[..last], i);
    } else {
      forall b | b in entries[i].blocks ensures b in Reverse(entries[i].blocks) {
        var x :| 0 <= x < |entries[i].blocks| && entries[i].blocks[x] == b;
        assert Reverse(entries[i].blocks)[|entries[i].blocks| - 1 - x] == b;
      }
    }
  }

  /** An entry goes at the latest with the step after its fence: nothing before
      it can hold it up longer. */
  lemma ReleasedByNextStep(k: int, entries: seq<Entry>, writes: seq<nat>, after: seq<Entry>, writesAfter: seq<nat>,
                           processed: nat, i: nat)
    requires OneApart(entries) && DrainedTo(k, entries, writes, after, writesAfter, processed)
    requires i < |entries| && entries[i].fence + 1 <= processed
    ensures i < k && forall b :: b in entries[i].blocks ==> b in Returned(entries[..k])
  {
    ReleasedIff(k, entries, writes, after, writesAfter, processed, i);
  }

  /** ... and with the step of its fence, no sooner, when no entry before it has
      a later fence. */
  lemma ReleasedInTime(k: int, entries: seq<Entry>, writes: seq<nat>, after: seq<Entry>, writesAfter: seq<nat>,
                       processed: nat, i: nat)
    requires DrainedTo(k, entries, writes, after, writesAfter, processed) && i < |entries|
    requires forall j :: 0 <= j < i ==> entries[j].fence <= entries[i].fence
    ensures i < k <==> entries[i].fence <= processed
  {
    ReleasedIff(k, entries, writes, after, writesAfter, processed, i);
  }

  /** A retained block is given back in the same order, deferred or not. */
  lemma SameOrder(blocks: seq<BlockId>, fence: nat)
    ensures Returned([Entry(fence, Reverse(blocks))]) == blocks
  {
    hide Reverse;
    var entry := Entry(fence, Reverse(blocks));
    assert [entry][..0] == [] && Returned([]) == [];
    ReverseTwice(blocks);
    assert Returned([entry]) == [] + Reverse(entry.blocks);
  }
}
