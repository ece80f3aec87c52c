/** `CPUOffloadingManager`: reference counts and slots of the CPU tier. */
module CpuManager {
  import opened Sequences
  import opened Blocks
  import opened Lru
  import opened CachePolicies
  import opened SlotPool

  datatype LookupResult = Miss | Hit | HitPending | Retry

  datatype StoreOutput = StoreOutput(keysToStore: seq<Key>, slots: seq<nat>, evicted: seq<Key>)

  /** `counts`: how often each key was looked up, oldest lookups first. */
  datatype Tracker = Tracker(order: seq<Key>, counts: map<Key, nat>) {
    ghost predicate Valid(limit: nat) {
      Distinct(order) && Elements(order) == counts.Keys && |order| <= limit
    }

    function Count(key: Key): nat { if key in counts then counts[key] else 0 }
  }

  /** One more lookup of `key`; a full tracker forgets its oldest key first. */
  function Tracked(tracker: Tracker, key: Key, limit: nat): Tracker
    requires limit > 0
  {
    var Tracker(order, counts) := tracker;
    if key in counts then Tracker(Drop(order, {key}) + [key], counts[key := counts[key] + 1])
    else if |order| >= limit then Tracker(order[1..] + [key], (counts - {order[0]})[key := 1])
    else Tracker(order + [key], counts[key := 1])
  }

  lemma TrackedValid(tracker: Tracker, key: Key, limit: nat)
    requires limit > 0 && tracker.Valid(limit)
    ensures Tracked(tracker, key, limit).Valid(limit)
    ensures Tracked(tracker, key, limit).Count(key) == tracker.Count(key) + 1
  {
    hide Distinct, Drop;
    var Tracker(order, counts) := tracker;
    assert key in Elements(order) <==> key in order;
    if key in counts {
      MovedToEnd(order, key);
    } else if |order| >= limit {
      TailDistinct(order);
      AppendDistinct(order[1..], key);
    } else {
      AppendDistinct(order, key);
    }
  }

  /** A tracker keeps the keys that were looked up last, and their counts. Only
      a new key makes it forget one, its oldest, and only when it is full. */
  lemma TrackedOthers(tracker: Tracker, key: Key, limit: nat)
    requires limit > 0 && tracker.Valid(limit)
    ensures var after := Tracked(tracker, key, limit);
            var full := key !in tracker.counts && |tracker.order| == limit;
            && after.order == (if full then tracker.order[1..] else Drop(tracker.order, {key})) + [key]
            && forall k :: k != key ==> after.Count(k) == if full && k == tracker.order[0] then 0 else tracker.Count(k)
  {
    hide Distinct, Drop;
    assert key in Elements(tracker.order) <==> key in tracker.order;
    if key !in tracker.order {
      DropNothing(tracker.order, {key});
    }
  }

  lemma MovedToEnd(order: seq<Key>, key: Key)
    requires Distinct(order) && key in order
    ensures var after := Drop(order, {key}) + [key];
            Distinct(after) && Elements(after) == Elements(order) && |after| == |order|
  {
    hide Distinct, Drop;
    DropDistinct(order, {key});
    AppendDistinct(Drop(order, {key}), key);
    assert Elements(Drop(order, {key})) == Elements(order) - {key};
    DistinctLength(order);
    DistinctLength(Drop(order, {key}) + [key]);
  }

  lemma TailDistinct(order: seq<Key>)
    requires Distinct(order) && order != []
    ensures Distinct(order[1..]) && Elements(order[1..]) == Elements(order) - {order[0]}
  {
    assert order == [order[0]] + order[1..];
  }

  /** The table once `keys` have one reader more. */
  function Pinned(table: Table, keys: seq<Key>): (r: Table)
    requires forall k :: k in keys ==> k in table
    ensures r.Keys == table.Keys
  {
    map k | k in table :: if k in keys then table[k].(refCnt := table[k].refCnt + 1) else table[k]
  }

  /** The table once `keys` have one reader less. */
  function Unpinned(table: Table, keys: seq<Key>): (r: Table)
    requires forall k :: k in keys ==> k in table
    ensures r.Keys == table.Keys
  {
    map k | k in table :: if k in keys then table[k].(refCnt := table[k].refCnt - 1) else table[k]
  }

  lemma NoneReserved(table: Table)
    ensures Reserved(table - Elements<Key>([]), [], []) == table
  {
    assert table - Elements<Key>([]) == table;
  }

  lemma AtCount(table: Table, key: Key, refCnt: int)
    ensures key in KeysAt(table, refCnt) <==> key in table && table[key].refCnt == refCnt
  {}

  /** The table once the writes of `keys` are over: blocks still being written
      become readable, or disappear when the write failed. All others stay. */
  function Finished(table: Table, keys: seq<Key>, success: bool): Table {
    if success then map k | k in table :: if k in keys && table[k].refCnt == -1 then table[k].(refCnt := 0) else table[k]
    else map k | k in table && !(k in keys && table[k].refCnt == -1) :: table[k]
  }

  lemma NoneFinished(table: Table, success: bool)
    ensures Finished(table, [], success) == table
  {}

  /** The end of the write of one key more. */
  lemma FinishedOneMore(table: Table, keys: seq<Key>, success: bool, i: nat)
    requires i < |keys|
    ensures var before := Finished(table, keys[..i], success);
            Finished(table, keys[..i + 1], success) ==
            if keys[i] !in before || before[keys[i]].refCnt != -1 then before
            else if success then before[keys[i] := before[keys[i]].(refCnt := 0)]
            else before - {keys[i]}
    ensures var before := Finished(table, keys[..i], success);
            keys[i] !in keys[..i] ==> (keys[i] in before <==> keys[i] in table)
                                      && (keys[i] in table ==> before[keys[i]] == table[keys[i]])
  {
    assert keys[..i + 1] == keys[..i] + [keys[i]];
  }

  /** The keys that count for a store: all, or those looked up often enough. */
  function Admitted(keys: seq<Key>, counts: Option<Tracker>, threshold: nat, bypass: bool): seq<Key> {
    if counts.None? || bypass then keys
    else Keep(keys, set k | k in keys && counts.value.Count(k) >= threshold)
  }

  class CpuOffloadingManager {
    const policy: CachePolicy
    const numBlocks: nat
    const callCap: nat
    const storeThreshold: nat
    const maxTracker: nat
    var numAllocated: nat
    var freeList: seq<nat>
    var numEvictable: int
    var numWritePending: int
    var counts: Option<Tracker>

    ghost predicate Valid()
      reads this, policy.Objects()
    {
      && this !in policy.Objects() && policy.Settled()
      && numAllocated <= numBlocks
      && Consistent(policy.Held(), freeList, numAllocated, numEvictable, numWritePending)
      && maxTracker > 0
      && (counts.Some? ==> counts.value.Valid(maxTracker))
      && (counts.Some? <==> storeThreshold >= 2)
    }

    ghost function Held(): Table
      reads policy.Objects()
    {
      policy.Held()
    }

    ghost function Free(): int
      reads this`freeList, this`numAllocated
    {
      |freeList| + numBlocks - numAllocated
    }

    constructor (policy: CachePolicy, numBlocks: nat, callCap: nat, storeThreshold: nat, maxTracker: nat)
      requires policy.Settled() && policy.Held() == map[] && maxTracker > 0
      ensures Valid() && Held() == map[]
      ensures this.policy == policy && this.numBlocks == numBlocks && this.callCap == callCap
      ensures this.storeThreshold == storeThreshold && this.maxTracker == maxTracker
      ensures freeList == [] && numAllocated == 0
      ensures counts == if storeThreshold >= 2 then Some(Tracker([], map[])) else None
    {
      this.policy, this.numBlocks, this.callCap := policy, numBlocks, callCap;
      this.storeThreshold, this.maxTracker := storeThreshold, maxTracker;
      numAllocated, freeList, numEvictable, numWritePending := 0, [], 0, 0;
      counts := if storeThreshold >= 2 then Some(Tracker([], map[])) else None;
    }

    method Lookup(key: Key) returns (r: LookupResult)
      requires Valid()
      modifies this`counts
      ensures Valid() && Held() == old(Held())
      ensures r == if key !in Held() then Miss else if Held()[key].refCnt == -1 then HitPending else Hit
      ensures counts == if old(counts).None? then None else Some(Tracked(old(counts).value, key, maxTracker))
    {
      hide Consistent, KeysAt, CachePolicy.Held, CachePolicy.Settled, Tracked;
      PoolOf(policy.Held(), freeList, numAllocated, numEvictable, numWritePending);
      if counts.Some? {
        TrackedValid(counts.value, key, maxTracker);
        counts := Some(Tracked(counts.value, key, maxTracker));
      }
      var block := policy.Get(key);
      r := if block.None? then Miss else if !block.value.Ready() then HitPending else Hit;
    }

    /** Writes one count and keeps the counters and the idle list in step. */
    method Recount(key: Key, refCnt: int)
      requires Valid() && key in Held() && refCnt >= -1 && refCnt != Held()[key].refCnt
      modifies this`numEvictable, this`numWritePending, policy.Objects()
      ensures Valid() && Held() == old(Held())[key := old(Held())[key].(refCnt := refCnt)]
      ensures policy.State() == Relisted(old(policy.State()), key, old(Held())[key].refCnt, refCnt)
    {
      hide Consistent, CachePolicy.Held, CachePolicy.Settled, CachePolicy.State, Relisted;
      var block := policy.Get(key);
      var was := block.value.refCnt;
      RecountConsistent(policy.Held(), key, refCnt, freeList, numAllocated, numEvictable, numWritePending);
      policy.Recount(key, refCnt);
      numEvictable := numEvictable + CountDelta(was, refCnt, 0);
      numWritePending := numWritePending + CountDelta(was, refCnt, -1);
    }

    /** Every key gets one reader more and cannot be evicted. */
    method PrepareLoad(keys: seq<Key>) returns (slots: seq<nat>)
      requires Valid() && Distinct(keys)
      requires forall k :: k in keys ==> k in Held() && Held()[k].Ready()
      modifies this`numEvictable, this`numWritePending, policy.Objects()
      ensures Valid() && Held() == Pinned(old(Held()), keys)
      ensures |slots| == |keys| && forall i :: 0 <= i < |keys| ==> slots[i] == Held()[keys[i]].id
    {
      hide Consistent, KeysAt, CachePolicy.Held, CachePolicy.Settled;
      slots := [];
      var i := 0;
      while i < |keys|
        invariant 0 <= i == |slots| <= |keys| && Valid()
        invariant Held() == Pinned(old(Held()), keys[..i])
        invariant forall j :: 0 <= j < i ==> slots[j] == old(Held())[keys[j]].id
        modifies this`numEvictable, this`numWritePending, policy.Objects()
      {
        var block := policy.Get(keys[i]);
        slots := slots + [block.value.id];
        Recount(keys[i], block.value.refCnt + 1);
        i := i + 1;
      }
      assert keys[..i] == keys;
    }

    /** Every key loses one reader. */
    method CompleteLoad(keys: seq<Key>)
      requires Valid() && Distinct(keys)
      requires forall k :: k in keys ==> k in Held() && Held()[k].refCnt > 0
      modifies this`numEvictable, this`numWritePending, policy.Objects()
      ensures Valid() && Held() == Unpinned(old(Held()), keys)
      ensures policy.State() == old(policy.State()).Listing(Keep(keys, KeysAt(old(Held()), 1)))
    {
      hide Consistent, KeysAt, Keep, CachePolicy.Held, CachePolicy.Settled, CachePolicy.State, Relisted,
          PolicyState.Listing;
      var i := 0;
      ListingNothing(policy.State());
      while i < |keys|
        invariant 0 <= i <= |keys| && Valid()
        invariant Held() == Unpinned(old(Held()), keys[..i])
        invariant policy.State() == old(policy.State()).Listing(Keep(keys[..i], KeysAt(old(Held()), 1)))
        modifies this`numEvictable, this`numWritePending, policy.Objects()
      {
        assert keys[i] !in keys[..i] && Held()[keys[i]] == old(Held())[keys[i]];
        var block := policy.Get(keys[i]);
        ListingOneMore(old(policy.State()), KeysAt(old(Held()), 1), keys, i, block.value.refCnt, block.value.refCnt - 1);
        AtCount(old(Held()), keys[i], 1);
        Recount(keys[i], block.value.refCnt - 1);
        i := i + 1;
      }
      assert keys[..i] == keys;
    }

    method Touch(keys: seq<Key>)
      requires Valid()
      modifies policy.Objects()
      ensures Valid() && Held() == old(Held()) && policy.State() == old(policy.AfterTouch(keys))
    {
      policy.Touch(keys);
    }

    /** Ends writes. Keys that are not being written are ignored. */
    method CompleteStore(keys: seq<Key>, success: bool)
      requires Valid()
      modifies this`numEvictable, this`numWritePending, this`freeList, policy.Objects()
      ensures Valid() && Held() == Finished(old(Held()), keys, success) && (success ==> freeList == old(freeList))
      ensures success && Distinct(keys) ==>
                policy.State() == old(policy.State()).Listing(Keep(keys, WritingKeys(old(Held()))))
      ensures OnlyForgets(old(policy.State()), policy.State())
    {
      hide Consistent, KeysAt, Keep, CachePolicy.Held, CachePolicy.Settled, CachePolicy.State, Finished, Relisted,
          PolicyState.Listing, OnlyForgets;
      NoneFinished(Held(), success);
      ListingNothing(policy.State());
      CountsForgetNothing(policy.State());
      var i := 0;
      while i < |keys|
        invariant 0 <= i <= |keys| && Valid()
        invariant Held() == Finished(old(Held()), keys[..i], success) && (success ==> freeList == old(freeList))
        invariant success && Distinct(keys) ==>
                    policy.State() == old(policy.State()).Listing(Keep(keys[..i], WritingKeys(old(Held()))))
        invariant OnlyForgets(old(policy.State()), policy.State())
        modifies this`numEvictable, this`numWritePending, this`freeList, policy.Objects()
      {
        PoolOf(policy.Held(), freeList, numAllocated, numEvictable, numWritePending);
        FinishedOneMore(old(Held()), keys, success, i);
        ListingOneMore(old(policy.State()), WritingKeys(old(Held())), keys, i, -1, 0);
        AtCount(old(Held()), keys[i], -1);
        ghost var before := policy.State();
        CountsForgetNothing(before);
        var block := policy.Get(keys[i]);
        if block.Some? && !block.value.Ready() {
          if success {
            Recount(keys[i], 0);
          } else {
            FreeWritten(keys[i]);
          }
        }
        ForgetsMore(old(policy.State()), before, policy.State());
        i := i + 1;
      }
      assert keys[..i] == keys;
    }

    /** Removes a block whose write failed and frees its slot. */
    method FreeWritten(key: Key)
      requires Valid() && key in Held() && Held()[key].refCnt == -1
      modifies this`numWritePending, this`freeList, policy.Objects()
      ensures Valid() && Held() == old(Held()) - {key} && OnlyForgets(old(policy.State()), policy.State())
    {
      hide Consistent, CachePolicy.Held, CachePolicy.Settled, CachePolicy.State, OnlyForgets;
      var block := policy.Get(key);
      RemoveConsistent(policy.Held(), key, freeList, numAllocated, numEvictable, numWritePending);
      numWritePending := numWritePending - 1;
      policy.Remove(key);
      freeList := freeList + [block.value.id];
    }

    /** Gives every missing key a slot of its own, evicting exactly as many idle
        blocks as are short, or changes nothing in the tier. */
    method PrepareStore(keys: seq<Key>, bypass: bool) returns (r: Option<StoreOutput>)
      requires Valid() && Distinct(keys)
      modifies this`numEvictable, this`numWritePending, this`freeList, this`numAllocated, policy.Objects()
      ensures Valid()
      ensures r.None? ==>
        && Held() == old(Held()) && policy.State() == old(policy.State())
        && freeList == old(freeList) && numAllocated == old(numAllocated)
      ensures var admitted := Admitted(keys, counts, storeThreshold, bypass);
              var short := |Drop(admitted, old(Held()).Keys)| - old(Free());
              r.None? <==> short > 0 && (0 < callCap < short || short > |IdleKeys(old(Held()))|
                                         || old(policy.Refuses(short, Elements(admitted))))
      ensures r.Some? ==>
        var admitted := Admitted(keys, counts, storeThreshold, bypass);
        var out := r.value;
        var short := |out.keysToStore| - old(Free());
        && out.keysToStore == Drop(admitted, old(Held()).Keys) && Distinct(out.keysToStore)
        && |out.slots| == |out.keysToStore| && Distinct(out.slots)
        && |out.evicted| == (if short > 0 then short else 0) && Distinct(out.evicted)
        && (callCap > 0 ==> |out.evicted| <= callCap)
        && (forall k :: k in out.evicted ==> k in IdleKeys(old(Held())) && k !in admitted)
        && Held() == Reserved(old(Held()) - Elements(out.evicted), out.keysToStore, out.slots)
        && (short > 0 ==> old(policy.Chooses(short, Elements(admitted), out.evicted)))
        && (policy.LruPolicy? ==> out.evicted == old(WouldEvict(this, keys, bypass, |out.evicted|)))
        && Free() == old(Free()) + |out.evicted| - |out.keysToStore|
    {
      hide Consistent, KeysAt, CachePolicy.Held, CachePolicy.Settled, CachePolicy.State, CachePolicy.Refuses,
          CachePolicy.Chooses, Keep, Drop, Reserved, Admitted, WouldEvict;
      if policy.LruPolicy? {
        LruVictims(this, keys, bypass);
      }
      var admitted := Admit(keys, bypass);
      DropDistinct(admitted, policy.Held().Keys);
      var missing := Missing(admitted);
      if missing == [] {
        NoneReserved(old(Held()));
        return Some(StoreOutput([], [], []));
      }
      var evicted := MakeRoom(|missing|, admitted);
      if evicted.None? {
        return None;
      }
      StillMissing(admitted, old(Held()), missing, evicted.value);
      var slots := Reserve(missing);
      r := Some(StoreOutput(missing, slots, evicted.value));
    }

    method Admit(keys: seq<Key>, bypass: bool) returns (admitted: seq<Key>)
      requires Distinct(keys)
      ensures admitted == Admitted(keys, counts, storeThreshold, bypass) && Distinct(admitted)
    {
      admitted := keys;
      if counts.Some? && !bypass {
        var often := set k | k in keys && counts.value.Count(k) >= storeThreshold;
        admitted := Keep(keys, often);
        KeepDistinct(keys, often);
      }
    }

    /** Evicts what `needed` slots are short of, never a block named in
        `protect`, and never more than the cap of one call. */
    method MakeRoom(needed: nat, protect: seq<Key>) returns (r: Option<seq<Key>>)
      requires Valid()
      modifies this`numEvictable, this`freeList, policy.Objects()
      ensures Valid()
      ensures r.None? ==> Held() == old(Held()) && policy.State() == old(policy.State()) && freeList == old(freeList)
      ensures var short := needed - old(Free());
              r.None? <==> short > 0 && (0 < callCap < short || short > |IdleKeys(old(Held()))|
                                         || old(policy.Refuses(short, Elements(protect))))
      ensures r.Some? ==>
        var evicted, short := r.value, needed - old(Free());
        && |evicted| == (if short > 0 then short else 0) && Distinct(evicted)
        && (callCap > 0 ==> |evicted| <= callCap)
        && (forall k :: k in evicted ==> k in IdleKeys(old(Held())) && k !in protect)
        && Held() == old(Held()) - Elements(evicted)
        && (short > 0 ==> old(policy.Chooses(short, Elements(protect), evicted)))
        && Free() == old(Free()) + |evicted| >= needed
    {
      PoolOf(policy.Held(), freeList, numAllocated, numEvictable, numWritePending);
      hide Consistent, KeysAt, CachePolicy.Held, CachePolicy.Settled, CachePolicy.State, CachePolicy.Refuses,
          CachePolicy.Chooses, Distinct;
      var freeBefore := |freeList| + numBlocks - numAllocated;
      var toEvict := needed - freeBefore;
      if toEvict <= 0 {
        assert policy.Held() - Elements<Key>([]) == policy.Held();
        return Some([]);
      }
      if 0 < callCap < toEvict {
        toEvict := callCap;
      }
      if toEvict > numEvictable || freeBefore + toEvict < needed {
        return None;
      }
      r := EvictIdle(toEvict, protect);
    }

    /** Hands `n` idle blocks, none of them in `protect`, to the free list. */
    method EvictIdle(n: nat, protect: seq<Key>) returns (r: Option<seq<Key>>)
      requires Valid() && n > 0
      modifies this`numEvictable, this`freeList, policy.Objects()
      ensures Valid()
      ensures r.None? ==> Held() == old(Held()) && policy.State() == old(policy.State()) && freeList == old(freeList)
      ensures r.None? <==> old(policy.Refuses(n, Elements(protect)))
      ensures r.Some? ==>
        && |r.value| == n && Distinct(r.value) && old(policy.Chooses(n, Elements(protect), r.value))
        && (forall k :: k in r.value ==> k in IdleKeys(old(Held())) && k !in protect)
        && Held() == old(Held()) - Elements(r.value)
        && |freeList| == old(|freeList|) + n
    {
      hide Consistent, KeysAt, CachePolicy.Held, CachePolicy.Settled, CachePolicy.State, CachePolicy.Refuses,
          CachePolicy.Chooses, Distinct;
      ghost var before := policy.Held();
      var victims := policy.Evict(n, set k | k in protect);
      assert (set k | k in protect) == Elements(protect);
      if victims.None? {
        return None;
      }
      var evicted := VictimKeys(victims.value);
      EvictConsistent(before, evicted, freeList, numAllocated, numEvictable, numWritePending);
      numEvictable := numEvictable - |evicted|;
      FreeAll(victims.value);
      r := Some(evicted);
    }

    /** Takes a slot for each of `keys` and lists them as being written. */
    method Reserve(keys: seq<Key>) returns (slots: seq<nat>)
      requires Valid() && Distinct(keys) && Elements(keys) !! Held().Keys && |keys| <= Free()
      modifies this`numWritePending, this`freeList, this`numAllocated, policy.Objects()
      ensures Valid() && |slots| == |keys| && Distinct(slots)
      ensures Held() == Reserved(old(Held()), keys, slots) && Free() == old(Free()) - |keys|
    {
      hide Consistent, CachePolicy.Held, CachePolicy.Settled;
      slots := Allocate(keys);
      numWritePending := numWritePending + |keys|;
      InsertAll(keys, slots);
    }

    /** The keys the tier does not hold yet. */
    method Missing(keys: seq<Key>) returns (missing: seq<Key>)
      ensures missing == Drop(keys, Held().Keys)
    {
      ghost var keep := Elements(keys) - Held().Keys;
      missing := [];
      var i := 0;
      while i < |keys|
        invariant 0 <= i <= |keys|
        invariant missing == Keep(keys[..i], keep)
      {
        KeepStep(keys, i, keep);
        var block := policy.Get(keys[i]);
        if block.None? {
          missing := missing + [keys[i]];
        }
        i := i + 1;
      }
      assert keys[..i] == keys;
    }

    method FreeAll(victims: seq<Victim>)
      modifies this`freeList
      ensures freeList == old(freeList) + SlotIds(victims)
    {
      var i := 0;
      while i < |victims|
        invariant 0 <= i <= |victims|
        invariant freeList == old(freeList) + SlotIds(victims)[..i]
      {
        freeList := freeList + [victims[i].block.id];
        i := i + 1;
      }
    }

    /** Takes fresh slots first, then reuses the most recently freed ones. */
    method Allocate(keys: seq<Key>) returns (slots: seq<nat>)
      requires Valid() && Distinct(keys) && Elements(keys) !! Held().Keys && |keys| <= Free()
      modifies this`freeList, this`numAllocated
      ensures |slots| == |keys| && Distinct(slots) && numAllocated <= numBlocks && Free() == old(Free()) - |keys|
      ensures Consistent(Reserved(Held(), keys, slots), freeList, numAllocated, numEvictable, numWritePending + |keys|)
    {
      hide Consistent, CachePolicy.Held, CachePolicy.Settled, Reserved, KeysAt, Distinct, Elements, Below;
      PoolOf(Held(), freeList, numAllocated, numEvictable, numWritePending);
      var numFresh := if |keys| < numBlocks - numAllocated then |keys| else numBlocks - numAllocated;
      var newSlots := TakeFresh(numFresh);
      assert Elements(newSlots) !! Elements(freeList);
      slots := TakeFreed(newSlots, |keys|);
      ReserveConsistent(Held(), old(freeList), old(numAllocated), numEvictable, numWritePending,
                        keys, slots, freeList, numAllocated);
    }

    method TakeFresh(n: nat) returns (slots: seq<nat>)
      requires n <= numBlocks - numAllocated
      modifies this`numAllocated
      ensures |slots| == n && Distinct(slots) && numAllocated == old(numAllocated) + n
      ensures Elements(slots) == Below(numAllocated) - Below(old(numAllocated))
    {
      slots := [];
      while |slots| < n
        invariant |slots| <= n && numAllocated == old(numAllocated) + |slots|
        invariant forall i :: 0 <= i < |slots| ==> slots[i] == old(numAllocated) + i
      {
        slots := slots + [numAllocated];
        numAllocated := numAllocated + 1;
      }
      forall id | id in Below(numAllocated) - Below(old(numAllocated)) ensures id in Elements(slots) {
        assert slots[id - old(numAllocated)] == id;
      }
    }

    method TakeFreed(taken: seq<nat>, n: nat) returns (slots: seq<nat>)
      requires |taken| <= n && n - |taken| <= |freeList|
      requires Distinct(taken) && Distinct(freeList) && Elements(taken) !! Elements(freeList)
      modifies this`freeList
      ensures |freeList| == old(|freeList|) - (n - |taken|)
      ensures |slots| == n && Distinct(slots) && Distinct(freeList) && Elements(slots) !! Elements(freeList)
      ensures Elements(slots) + Elements(freeList) == Elements(taken) + Elements(old(freeList))
    {
      slots := taken;
      while |slots| < n
        invariant |taken| <= |slots| <= n && n - |slots| <= |freeList| == old(|freeList|) - (|slots| - |taken|)
        invariant Distinct(slots) && Distinct(freeList) && Elements(slots) !! Elements(freeList)
        invariant Elements(slots) + Elements(freeList) == Elements(taken) + Elements(old(freeList))
      {
        var last, rest := freeList[|freeList| - 1], freeList[..|freeList| - 1];
        assert freeList == rest + [last];
        assert Elements(freeList) == Elements(rest) + {last};
        assert last in Elements(freeList) && last !in Elements(rest);
        assert Elements(slots + [last]) == Elements(slots) + {last};
        slots, freeList := slots + [last], rest;
      }
    }

    method InsertAll(keys: seq<Key>, slots: seq<nat>)
      requires policy.Settled()
      requires |keys| == |slots| && Distinct(keys) && Elements(keys) !! Held().Keys
      modifies policy.Objects()
      ensures policy.Settled()
      ensures Held() == Reserved(old(Held()), keys, slots)
    {
      var i := 0;
      while i < |keys|
        invariant 0 <= i <= |keys| && policy.Settled()
        invariant Held() == Reserved(old(Held()), keys[..i], slots[..i])
        modifies policy.Objects()
      {
        assert keys[i] in Elements(keys);
        assert keys[..i + 1][..i] == keys[..i] && slots[..i + 1][..i] == slots[..i];
        policy.Insert(keys[i], Block(-1, slots[i]));
        i := i + 1;
      }
      assert keys[..i] == keys && slots[..i] == slots;
    }

    method ResetCache()
      requires Valid()
      modifies this`numEvictable, this`numWritePending, this`freeList, this`numAllocated, policy.Objects()
      ensures Valid() && Held() == map[] && freeList == [] && numAllocated == 0
    {
      hide Consistent, CachePolicy.Held, CachePolicy.Settled;
      EmptyConsistent();
      policy.Clear();
      numEvictable, numWritePending, freeList, numAllocated := 0, 0, [], 0;
    }
  }

  // ---- a store may evict a block it names ----

  /** The key counts for a store. */
  predicate Passes(key: Key, counts: Option<Tracker>, threshold: nat, bypass: bool) {
    counts.None? || bypass || counts.value.Count(key) >= threshold
  }

  /** Under LRU the victims of a store are the oldest idle blocks that do not
      count for it; whether it names them does not matter. */
  lemma LruVictims(manager: CpuOffloadingManager, keys: seq<Key>, bypass: bool)
    requires manager.policy.LruPolicy?
    ensures WouldEvict(manager, keys, bypass, 0) == []
    ensures var admitted := Admitted(keys, manager.counts, manager.storeThreshold, bypass);
            forall n: nat, victims :: manager.policy.Chooses(n, Elements(admitted), victims) ==>
              victims == WouldEvict(manager, keys, bypass, n)
  {}

  /** The idle blocks that a store needing `n` slots more would evict under LRU. */
  ghost function WouldEvict(manager: CpuOffloadingManager, keys: seq<Key>, bypass: bool, n: nat): seq<Key>
    requires manager.policy.LruPolicy?
    reads manager, manager.policy.Objects()
  {
    var idle := Drop(manager.policy.lru.evictable,
                     Elements(Admitted(keys, manager.counts, manager.storeThreshold, bypass)));
    if n <= |idle| then idle[..n] else idle
  }

  /** Whatever a store needs, none of the blocks it names is evicted for it
      exactly when the idle ones among them pass the threshold. */
  lemma NamedBlocksSafeIff(manager: CpuOffloadingManager, keys: seq<Key>, bypass: bool)
    requires manager.Valid() && manager.policy.LruPolicy?
    ensures (forall n: nat, k :: k in keys ==> k !in WouldEvict(manager, keys, bypass, n))
            <==> forall k :: k in keys && k in IdleKeys(manager.Held()) ==>
                   Passes(k, manager.counts, manager.storeThreshold, bypass)
  {
    hide Admitted, Passes, WouldEvict, CpuOffloadingManager.Valid;
    AdmittedPasses(keys, manager.counts, manager.storeThreshold, bypass);
    ListIsIdle(manager);
    var admitted := Admitted(keys, manager.counts, manager.storeThreshold, bypass);
    forall n: nat, k | k in keys
      ensures k in WouldEvict(manager, keys, bypass, n) ==> k in IdleKeys(manager.Held()) && k !in admitted
    {
      if k in WouldEvict(manager, keys, bypass, n) { VictimIs(manager, keys, bypass, n, k); }
    }
    if k :| k in keys && k in IdleKeys(manager.Held()) && k !in admitted {
      AllVictims(manager, keys, bypass, k);
      assert k in WouldEvict(manager, keys, bypass, |manager.policy.lru.evictable|);
    }
  }

  lemma AdmittedPasses(keys: seq<Key>, counts: Option<Tracker>, threshold: nat, bypass: bool)
    ensures forall k :: k in keys ==> (k in Admitted(keys, counts, threshold, bypass)
                                       <==> Passes(k, counts, threshold, bypass))
  {}

  lemma ListIsIdle(manager: CpuOffloadingManager)
    requires manager.Valid() && manager.policy.LruPolicy?
    ensures forall k :: k in manager.policy.lru.evictable <==> k in IdleKeys(manager.Held())
  {
    assert Elements(manager.policy.lru.evictable) == IdleKeys(manager.Held());
    assert forall k :: k in manager.policy.lru.evictable <==> k in Elements(manager.policy.lru.evictable);
  }

  lemma VictimIs(manager: CpuOffloadingManager, keys: seq<Key>, bypass: bool, n: nat, k: Key)
    requires manager.policy.LruPolicy? && k in WouldEvict(manager, keys, bypass, n)
    ensures k in manager.policy.lru.evictable
    ensures k !in Admitted(keys, manager.counts, manager.storeThreshold, bypass)
  {}

  lemma AllVictims(manager: CpuOffloadingManager, keys: seq<Key>, bypass: bool, k: Key)
    requires manager.policy.LruPolicy? && k in manager.policy.lru.evictable
    requires k !in Admitted(keys, manager.counts, manager.storeThreshold, bypass)
    ensures k in WouldEvict(manager, keys, bypass, |manager.policy.lru.evictable|)
  {
    var idle := Drop(manager.policy.lru.evictable,
                     Elements(Admitted(keys, manager.counts, manager.storeThreshold, bypass)));
    assert idle[..|idle|] == idle;
  }

  /** Two lookups of a key that the one-key tracker does not hold. */
  method LookUpTwice(manager: CpuOffloadingManager, key: Key)
    requires manager.Valid() && manager.maxTracker == 1 && manager.counts.Some? && key !in manager.counts.value.counts
    modifies manager`counts
    ensures manager.Valid() && manager.Held() == old(manager.Held())
    ensures manager.counts == Some(Tracker([key], map[key := 2]))
  {
    hide Drop, Consistent, CachePolicy.Settled, CachePolicy.Held;
    var tracker := manager.counts.value;
    OnlyOne(tracker, key);
    var answer := manager.Lookup(key);
    DropNothing<Key>([], {key});
    answer := manager.Lookup(key);
  }

  lemma OnlyOne(tracker: Tracker, key: Key)
    requires tracker.Valid(1) && key !in tracker.counts
    ensures Tracked(tracker, key, 1) == Tracker([key], map[key := 1])
    ensures Tracked(Tracker([key], map[key := 1]), key, 1) == Tracker([key], map[key := 2])
  {
    hide Drop;
    OldestOnly(tracker);
    DropAll(key);
  }

  lemma OldestOnly(tracker: Tracker)
    requires tracker.Valid(1)
    ensures tracker.order == [] ==> tracker.counts == map[]
    ensures tracker.order != [] ==> tracker.order[1..] == [] && tracker.counts - {tracker.order[0]} == map[]
  {
    hide Drop;
    assert tracker.order != [] ==> Elements(tracker.order) == {tracker.order[0]};
  }

  lemma DropAll(key: Key)
    ensures Drop([key], {key}) == []
  {
    KeepNone([key], Elements([key]) - {key});
  }

  /** One slot, a threshold of 2, and a tracker of one key: block 1 is looked up
      twice and stored, then block 2 is looked up twice, and the store of both
      evicts block 1. */
  method NamedBlockEvicted() returns (r: Option<StoreOutput>)
    ensures r.Some? && r.value.keysToStore == [2] && r.value.evicted == [1]
  {
    hide Drop, Keep, Consistent, CachePolicy.Settled, CachePolicy.Chooses, CachePolicy.Refuses, Finished, Reserved,
        Admitted, CpuOffloadingManager.Valid;
    var lru := new LruCachePolicy();
    SettledLru(lru);
    var manager := new CpuOffloadingManager(LruPolicy(lru), 1, 0, 2, 1);
    LookUpTwice(manager, 1);
    StoreFirst(manager);
    LookUpTwice(manager, 2);
    r := StoreBoth(manager);
  }

  lemma SettledLru(lru: LruCachePolicy)
    requires lru.Valid() && lru.blocks == map[] && lru.evictable == []
    ensures LruPolicy(lru).Settled() && LruPolicy(lru).Held() == map[]
  {}

  method StoreFirst(manager: CpuOffloadingManager)
    requires manager.Valid() && manager.Held() == map[] && manager.Free() == 1 && manager.storeThreshold == 2
    requires manager.counts == Some(Tracker([1], map[1 := 2]))
    modifies manager`numEvictable, manager`numWritePending, manager`freeList, manager`numAllocated,
        manager.policy.Objects()
    ensures manager.Valid() && manager.Held().Keys == {1} && manager.Held()[1].refCnt == 0 && manager.Free() == 0
  {
    hide Drop, Keep, Consistent, CachePolicy.Settled, CachePolicy.Chooses, CachePolicy.Refuses, Admitted,
        CpuOffloadingManager.Valid;
    AdmitsOnly(1, [1]);
    DropNothing<Key>([1], {});
    var out := manager.PrepareStore([1], false);
    manager.CompleteStore([1], true);
  }

  method StoreBoth(manager: CpuOffloadingManager) returns (r: Option<StoreOutput>)
    requires manager.Valid() && manager.Held().Keys == {1} && manager.Held()[1].refCnt == 0 && manager.Free() == 0
    requires manager.policy.LruPolicy? && manager.callCap == 0 && manager.storeThreshold == 2
    requires manager.counts == Some(Tracker([2], map[2 := 2]))
    modifies manager`numEvictable, manager`numWritePending, manager`freeList, manager`numAllocated,
        manager.policy.Objects()
    ensures r.Some? && r.value.keysToStore == [2] && r.value.evicted == [1]
  {
    hide Drop, Keep, Consistent, Admitted, Reserved, WouldEvict, CachePolicy.Settled, CachePolicy.Refuses,
        CachePolicy.Chooses, CpuOffloadingManager.Valid;
    AdmitsOnly(2, [1, 2]);
    DropNothing<Key>([2], manager.Held().Keys);
    OneIdle(manager);
    r := manager.PrepareStore([1, 2], false);
  }

  lemma OneIdle(manager: CpuOffloadingManager)
    requires manager.Valid() && manager.policy.LruPolicy? && manager.Held().Keys == {1} && manager.Held()[1].refCnt == 0
    requires Admitted([1, 2], manager.counts, manager.storeThreshold, false) == [2]
    ensures !manager.policy.Refuses(1, Elements([2])) && WouldEvict(manager, [1, 2], false, 1) == [1]
    ensures IdleKeys(manager.Held()) == {1}
  {
    hide Admitted, Drop;
    var list := manager.policy.lru.evictable;
    assert Elements(list) == IdleKeys(manager.Held()) == {1};
    DistinctLength(list);
    assert list[0] in Elements(list) && list == [list[0]];
    DropNothing<Key>([1], Elements([2]));
  }

  /** Only key `k` was looked up twice. */
  lemma AdmitsOnly(k: Key, keys: seq<Key>)
    requires keys == [k] || (|keys| == 2 && keys[0] != k && keys[1] == k)
    ensures Admitted(keys, Some(Tracker([k], map[k := 2])), 2, false) == [k]
  {
    hide Keep;
    var often := set j | j in keys && Tracker([k], map[k := 2]).Count(j) >= 2;
    KeepAll([k], often);
    if |keys| == 2 {
      assert keys == [keys[0]] + [k];
      KeepAppend([keys[0]], [k], often);
      KeepNone([keys[0]], often);
    }
  }

  lemma EmptyConsistent()
    ensures Consistent(map[], [], 0, 0, 0)
  {
    assert SlotsOf(map[]) == {};
  }

  lemma StillMissing(keys: seq<Key>, table: Table, missing: seq<Key>, evicted: seq<Key>)
    requires missing == Drop(keys, table.Keys)
    ensures Elements(missing) !! (table - Elements(evicted)).Keys
  {}

  lemma PoolOf(table: Table, free: seq<nat>, carved: nat, idle: int, writing: int)
    requires Consistent(table, free, carved, idle, writing)
    ensures Distinct(free) && Elements(free) <= Below(carved) && idle == |IdleKeys(table)|
    ensures forall k :: k in table ==> table[k].refCnt >= -1
  {}
}
