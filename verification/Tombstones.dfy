/** The registry of block hashes that were evicted from the CPU tier. */
module Tombstones {
  import opened Sequences
  import opened Blocks
  import opened CachePolicies
  import opened SlotPool
  import opened CpuManager

  type Hash = nat

  /** The youngest `n` entries. */
  function Youngest(s: seq<Hash>, n: nat): seq<Hash> {
    if |s| <= n then s else s[|s| - n..]
  }

  /** The registry after one eviction: a hash that is in it keeps its place. */
  function Noted(registry: seq<Hash>, capacity: nat, hash: Hash): seq<Hash> {
    if hash in registry then registry else Youngest(registry + [hash], capacity)
  }

  function NotedAll(registry: seq<Hash>, capacity: nat, hashes: seq<Hash>): seq<Hash> {
    if hashes == [] then registry
    else Noted(NotedAll(registry, capacity, hashes[..|hashes| - 1]), capacity, hashes[|hashes| - 1])
  }

  /** How many of the evictions were new to the registry at their time. */
  function Added(registry: seq<Hash>, capacity: nat, hashes: seq<Hash>): nat {
    if hashes == [] then 0
    else
      var front := hashes[..|hashes| - 1];
      Added(registry, capacity, front)
      + if hashes[|hashes| - 1] in NotedAll(registry, capacity, front) then 0 else 1
  }

  class EvictionTombstones {
    const capacity: nat
    var registry: seq<Hash>
    var overflows: nat

    ghost predicate Valid()
      reads this
    {
      Distinct(registry) && |registry| <= capacity
    }

    constructor (capacity: nat)
      ensures Valid() && this.capacity == capacity && registry == [] && overflows == 0
    {
      this.capacity, registry, overflows := capacity, [], 0;
    }

    /** Entries are only added or aged out, and every one aged out is counted. */
    method Record(hashes: seq<Hash>)
      requires Valid()
      modifies this
      ensures Valid()
      ensures registry == if capacity == 0 then old(registry) else NotedAll(old(registry), capacity, hashes)
      ensures capacity > 0 ==>
                overflows + |registry| == old(overflows) + |old(registry)| + Added(old(registry), capacity, hashes)
      ensures capacity == 0 ==> overflows == old(overflows)
    {
      if capacity == 0 {
        return;
      }
      for i := 0 to |hashes|
        invariant Valid() && registry == NotedAll(old(registry), capacity, hashes[..i])
        invariant overflows + |registry|
                  == old(overflows) + |old(registry)| + Added(old(registry), capacity, hashes[..i])
      {
        assert hashes[..i + 1][..i] == hashes[..i];
        if hashes[i] !in registry {
          Insert(hashes[i]);
        }
      }
      assert hashes[..|hashes|] == hashes;
    }

    method Insert(hash: Hash)
      requires Valid() && capacity > 0 && hash !in registry
      modifies this
      ensures Valid() && registry == Noted(old(registry), capacity, hash)
      ensures overflows + |registry| == old(overflows) + |old(registry)| + 1
    {
      hide Distinct, Noted;
      NotedIs(registry, capacity, hash);
      ghost var all := registry + [hash];
      registry := registry + [hash];
      while |registry| > capacity
        invariant (registry == all && overflows == old(overflows))
                  || (registry == all[1..] && |all| > capacity && overflows == old(overflows) + 1)
        decreases |registry|
      {
        registry, overflows := registry[1..], overflows + 1;
      }
    }

    /** A block that is stored again is no longer an evicted one. */
    method Forget(hashes: seq<Hash>)
      requires Valid()
      modifies this`registry
      ensures Valid() && registry == Drop(old(registry), Elements(hashes))
    {
      DropNothing(registry, Elements(hashes[..0]));
      for i := 0 to |hashes|
        invariant registry == Drop(old(registry), Elements(hashes[..i]))
      {
        DropTwice(old(registry), Elements(hashes[..i]), {hashes[i]});
        assert Elements(hashes[..i + 1]) == Elements(hashes[..i]) + {hashes[i]};
        registry := Drop(registry, {hashes[i]});
      }
      assert hashes[..|hashes|] == hashes;
      DropDistinct(old(registry), Elements(hashes));
    }

    method Has(hash: Hash) returns (r: bool)
      requires Valid()
      ensures r <==> hash in registry
    {
      r := hash in registry;
    }
  }

  lemma NotedIs(registry: seq<Hash>, capacity: nat, hash: Hash)
    requires Distinct(registry) && |registry| <= capacity && hash !in registry
    ensures Noted(registry, capacity, hash) == Youngest(registry + [hash], capacity)
    ensures Distinct(Noted(registry, capacity, hash)) && |Noted(registry, capacity, hash)| <= capacity
  {}

  /** Of evictions of different blocks, none in the registry yet, the youngest
      `capacity` are in it. */
  lemma NewOnesAre(registry: seq<Hash>, capacity: nat, hashes: seq<Hash>)
    requires capacity > 0 && |registry| <= capacity && Distinct(registry + hashes)
    ensures var all, after := registry + hashes, NotedAll(registry, capacity, hashes);
            && |after| == (if |all| < capacity then |all| else capacity)
            && after == all[|all| - |after|..]
  {
    YoungestAre(registry, capacity, hashes);
  }

  lemma {:induction false} YoungestAre(registry: seq<Hash>, capacity: nat, hashes: seq<Hash>)
    requires capacity > 0 && |registry| <= capacity && Distinct(registry + hashes)
    ensures NotedAll(registry, capacity, hashes) == Youngest(registry + hashes, capacity)
  {
    hide Distinct, Youngest;
    if hashes == [] {
      assert registry + [] == registry;
      FewEnough(registry, capacity);
    } else {
      var front, h := hashes[..|hashes| - 1], hashes[|hashes| - 1];
      NewestIsNew(registry, front, h, hashes);
      YoungestAre(registry, capacity, front);
      YoungestOfMore(registry + front, capacity, h);
      assert registry + hashes == registry + front + [h];
    }
  }

  /** Evictions of blocks that are in it already change nothing. */
  lemma {:induction false} ListedOnesStay(registry: seq<Hash>, capacity: nat, hashes: seq<Hash>)
    requires forall h :: h in hashes ==> h in registry
    ensures NotedAll(registry, capacity, hashes) == registry
  {
    if hashes != [] {
      ListedOnesStay(registry, capacity, hashes[..|hashes| - 1]);
    }
  }

  lemma FewEnough(s: seq<Hash>, n: nat)
    requires |s| <= n
    ensures Youngest(s, n) == s
  {}

  lemma NewestIsNew(registry: seq<Hash>, front: seq<Hash>, h: Hash, hashes: seq<Hash>)
    requires hashes == front + [h] && Distinct(registry + hashes)
    ensures Distinct(registry + front) && h !in registry + front
  {
    var all := registry + hashes;
    assert all[|all| - 1] == h && forall i :: 0 <= i < |all| - 1 ==> all[i] == (registry + front)[i];
  }

  lemma YoungestOfMore(s: seq<Hash>, n: nat, h: Hash)
    requires n > 0
    ensures Youngest(Youngest(s, n) + [h], n) == Youngest(s + [h], n)
    ensures h !in s ==> h !in Youngest(s, n)
  {}

  /** An entry with `i` older ones stays for as many evictions at least. */
  lemma {:induction false} EntryStays(registry: seq<Hash>, capacity: nat, hashes: seq<Hash>, i: nat) returns (at: nat)
    requires capacity > 0 && |registry| <= capacity && i < |registry| && |hashes| <= i
    ensures var after := NotedAll(registry, capacity, hashes);
            |after| <= capacity && i - |hashes| <= at < |after| && after[at] == registry[i]
  {
    if hashes == [] {
      return i;
    }
    var front, h := hashes[..|hashes| - 1], hashes[|hashes| - 1];
    var before := NotedAll(registry, capacity, front);
    at := EntryStays(registry, capacity, front, i);
    if h !in before && |before| == capacity {
      assert (before + [h])[1..][at - 1] == before[at];
      at := at - 1;
    }
  }

  function Hashes(hash: Key -> Hash, keys: seq<Key>): (r: seq<Hash>)
    ensures |r| == |keys| && forall i :: 0 <= i < |keys| ==> r[i] == hash(keys[i])
  {
    seq(|keys|, i requires 0 <= i < |keys| => hash(keys[i]))
  }

  /** Several groups may cache blocks of one hash. */
  ghost predicate OwnHash(hash: Key -> Hash, key: Key) {
    forall k :: hash(k) == hash(key) ==> k == key
  }

  /** No block that can be read counts as evicted, unless it shares its hash. */
  ghost predicate ReadableUnlisted(hash: Key -> Hash, table: Table, registry: seq<Hash>) {
    forall k :: k in table && table[k].Ready() && OwnHash(hash, k) ==> hash(k) !in registry
  }

  lemma {:induction false} NotedFrom(registry: seq<Hash>, capacity: nat, hashes: seq<Hash>, h: Hash)
    requires h in NotedAll(registry, capacity, hashes)
    ensures h in registry || h in hashes
  {
    if hashes != [] {
      var front := hashes[..|hashes| - 1];
      if h in NotedAll(registry, capacity, front) {
        NotedFrom(registry, capacity, front, h);
      }
    }
  }

  lemma EvictedUnlisted(hash: Key -> Hash, table: Table, registry: seq<Hash>, capacity: nat, evicted: seq<Key>,
                        keys: seq<Key>, slots: seq<nat>)
    requires ReadableUnlisted(hash, table, registry) && |keys| == |slots| && Distinct(keys)
    requires forall k :: k in keys ==> k !in table
    ensures var after := Reserved(table - Elements(evicted), keys, slots);
            && ReadableUnlisted(hash, after, registry)
            && ReadableUnlisted(hash, after, NotedAll(registry, capacity, Hashes(hash, evicted)))
  {
    var kept := table - Elements(evicted);
    var after := Reserved(kept, keys, slots);
    ReservedEach(kept, keys, slots);
    forall k | k in after && after[k].Ready() && OwnHash(hash, k)
      ensures hash(k) !in registry && hash(k) !in NotedAll(registry, capacity, Hashes(hash, evicted))
    {
      if hash(k) in NotedAll(registry, capacity, Hashes(hash, evicted)) {
        NotedFrom(registry, capacity, Hashes(hash, evicted), hash(k));
      }
    }
  }

  lemma FinishedUnlisted(hash: Key -> Hash, table: Table, registry: seq<Hash>, keys: seq<Key>, stored: seq<Key>,
                         success: bool)
    requires ReadableUnlisted(hash, table, registry)
    requires forall k :: k in keys && k in WritingKeys(table) ==> k in stored
    ensures ReadableUnlisted(hash, Finished(table, keys, success),
                             if success then Drop(registry, Elements(Hashes(hash, stored))) else registry)
  {
    forall k | k in stored ensures hash(k) in Hashes(hash, stored) {
      var i :| 0 <= i < |stored| && stored[i] == k;
      assert Hashes(hash, stored)[i] == hash(k);
    }
  }

  /** The tier together with its registry. */
  class RecordedTier {
    const tier: CpuOffloadingManager
    const tombstones: EvictionTombstones
    /** The block hash in a key. */
    const hash: Key -> Hash

    ghost predicate Valid()
      reads this, tier, tier.policy.Objects(), tombstones
    {
      && tombstones !in tier.policy.Objects() && tier.Valid() && tombstones.Valid()
      && ReadableUnlisted(hash, tier.Held(), tombstones.registry)
    }

    constructor (tier: CpuOffloadingManager, tombstones: EvictionTombstones, hash: Key -> Hash)
      requires tombstones !in tier.policy.Objects() && tier.Valid() && tombstones.Valid()
      requires tier.Held() == map[] || tombstones.registry == []
      ensures Valid() && this.tier == tier && this.tombstones == tombstones && this.hash == hash
    {
      this.tier, this.tombstones, this.hash := tier, tombstones, hash;
    }

    /** What is evicted for a store is recorded. */
    method PrepareStore(keys: seq<Key>, bypass: bool) returns (r: Option<StoreOutput>)
      requires Valid() && Distinct(keys)
      modifies tier`numEvictable, tier`numWritePending, tier`freeList, tier`numAllocated, tier.policy.Objects(), tombstones
      ensures Valid()
      ensures tombstones.registry ==
              if r.None? || tombstones.capacity == 0 then old(tombstones.registry)
              else NotedAll(old(tombstones.registry), tombstones.capacity, Hashes(hash, r.value.evicted))
      ensures r.Some? ==>
        && |r.value.slots| == |r.value.keysToStore|
        && tier.Held() == Reserved(old(tier.Held()) - Elements(r.value.evicted), r.value.keysToStore, r.value.slots)
      ensures r.None? ==> tier.Held() == old(tier.Held())
    {
      hide CpuOffloadingManager.Valid, CachePolicy.Held, CachePolicy.State, CachePolicy.Refuses, CachePolicy.Chooses,
          Admitted, Drop, KeysAt, Distinct, Elements, WouldEvict, ReadableUnlisted, NotedAll, Reserved;
      ghost var before := tier.Held();
      r := tier.PrepareStore(keys, bypass);
      if r.Some? {
        EvictedUnlisted(hash, before, tombstones.registry, tombstones.capacity, r.value.evicted, r.value.keysToStore,
                        r.value.slots);
        tombstones.Record(Hashes(hash, r.value.evicted));
      }
    }

    /** The hashes of blocks that have become readable are removed. */
    method CompleteStore(keys: seq<Key>, success: bool)
      requires Valid()
      modifies tier`numEvictable, tier`numWritePending, tier`freeList, tier.policy.Objects(), tombstones`registry
      ensures Valid() && tier.Held() == Finished(old(tier.Held()), keys, success)
      ensures tombstones.registry ==
              if !success then old(tombstones.registry)
              else Drop(old(tombstones.registry), Elements(Hashes(hash, Keep(keys, WritingKeys(old(tier.Held()))))))
    {
      hide CpuOffloadingManager.Valid, CachePolicy.Held, CachePolicy.State, PolicyState.Listing, Drop, Distinct,
          Elements, ReadableUnlisted, Finished;
      var stored := Written(keys);
      FinishedUnlisted(hash, tier.Held(), tombstones.registry, keys, stored, success);
      tier.CompleteStore(keys, success);
      if success {
        tombstones.Forget(Hashes(hash, stored));
      }
    }

    method Written(keys: seq<Key>) returns (stored: seq<Key>)
      requires tier.Valid()
      ensures stored == Keep(keys, WritingKeys(tier.Held()))
    {
      hide Keep, CachePolicy.Held, CachePolicy.Settled, Consistent;
      PoolOf(tier.Held(), tier.freeList, tier.numAllocated, tier.numEvictable, tier.numWritePending);
      stored := [];
      assert Keep(keys[..0], WritingKeys(tier.Held())) == [] by { NothingKept(keys[..0], WritingKeys(tier.Held())); }
      for i := 0 to |keys|
        invariant stored == Keep(keys[..i], WritingKeys(tier.Held()))
      {
        KeepStep(keys, i, WritingKeys(tier.Held()));
        var block := tier.policy.Get(keys[i]);
        if block.Some? && !block.value.Ready() {
          stored := stored + [keys[i]];
        }
      }
      assert keys[..|keys|] == keys;
    }
  }

  lemma NothingKept(keys: seq<Key>, keep: set<Key>)
    requires keys == []
    ensures Keep(keys, keep) == []
  {}
}
