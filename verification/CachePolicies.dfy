/** The `CachePolicy` interface, over its two built-in implementations. */
module CachePolicies {
  import opened Sequences
  import opened Blocks
  import opened Lru
  import opened Arc

  /** Everything a policy decides from, as a value. */
  datatype PolicyState =
    | LruState(evictable: seq<Key>)
    | ArcState(lists: Lists)
  {
    /** Blocks that become idle join the recent end of LRU's list. */
    function Listing(keys: seq<Key>): PolicyState {
      match this
      case LruState(evictable) => LruState(evictable + keys)
      case ArcState(_) => this
    }
  }

  lemma ListingNothing(state: PolicyState)
    ensures forall keys: seq<Key>, keep :: state.Listing(Keep(keys[..0], keep)) == state
  {
    forall keys: seq<Key>, keep ensures state.Listing(Keep(keys[..0], keep)) == state {
      assert keys[..0] == [];
      if state.LruState? { assert state.evictable + [] == state.evictable; }
    }
  }

  /** The next key is listed if its count becomes 0, and all others stay. */
  lemma ListingOneMore(state: PolicyState, listed: set<Key>, keys: seq<Key>, i: nat, was: int, refCnt: int)
    requires i < |keys| && was != 0
    ensures (refCnt == 0 <==> keys[i] in listed) ==>
              Relisted(state.Listing(Keep(keys[..i], listed)), keys[i], was, refCnt)
              == state.Listing(Keep(keys[..i + 1], listed))
    ensures keys[i] !in listed ==> state.Listing(Keep(keys[..i + 1], listed)) == state.Listing(Keep(keys[..i], listed))
  {
    KeepStep(keys, i, listed);
    if state.LruState? {
      var now := if keys[i] in listed then [keys[i]] else [];
      assert state.evictable + Keep(keys[..i], listed) + now == state.evictable + (Keep(keys[..i], listed) + now);
    }
  }

  /** LRU lists a block exactly as long as its count is 0, the latest last. */
  function Relisted(state: PolicyState, key: Key, was: int, refCnt: int): PolicyState {
    match state
    case LruState(evictable) =>
      LruState((if was == 0 then Drop(evictable, {key}) else evictable) + if refCnt == 0 then [key] else [])
    case ArcState(lists) => state
  }

  /** ARC's lists may lose blocks, and nothing else changes for it. */
  ghost predicate OnlyForgets(before: PolicyState, after: PolicyState) {
    before.ArcState? ==>
      && after.ArcState? && after.lists.target == before.lists.target
      && Elements(after.lists.t1) <= Elements(before.lists.t1)
      && Elements(after.lists.t2) <= Elements(before.lists.t2)
  }

  lemma ForgetsMore(a: PolicyState, b: PolicyState, c: PolicyState)
    requires OnlyForgets(a, b) && OnlyForgets(b, c)
    ensures OnlyForgets(a, c)
  {}

  lemma ForgettingAddsUp()
    ensures forall a :: OnlyForgets(a, a)
    ensures forall a, b, c :: OnlyForgets(a, b) && OnlyForgets(b, c) ==> OnlyForgets(a, c)
  {}

  /** A count that changes, or blocks that become idle, mean nothing to ARC. */
  lemma CountsForgetNothing(state: PolicyState)
    ensures OnlyForgets(state, state)
    ensures forall key, was, refCnt :: OnlyForgets(state, Relisted(state, key, was, refCnt))
    ensures forall keys :: OnlyForgets(state, state.Listing(keys))
  {}

  datatype CachePolicy = LruPolicy(lru: LruCachePolicy) | ArcPolicy(arc: ArcCachePolicy) {

    ghost function Objects(): set<object> {
      match this case LruPolicy(lru) => {lru} case ArcPolicy(arc) => {arc}
    }

    ghost predicate Valid()
      reads Objects()
    {
      match this case LruPolicy(lru) => lru.Valid() case ArcPolicy(arc) => arc.Valid()
    }

    ghost function Held(): Table
      reads Objects()
    {
      match this case LruPolicy(lru) => lru.blocks case ArcPolicy(arc) => arc.blocks
    }

    ghost function State(): PolicyState
      reads Objects()
    {
      match this
      case LruPolicy(lru) => LruState(lru.evictable)
      case ArcPolicy(arc) => ArcState(arc.Value())
    }

    /** ... once `keys` were used, the last of them first. */
    ghost function AfterTouch(keys: seq<Key>): PolicyState
      reads Objects()
    {
      match this
      case LruPolicy(lru) => LruState(TouchedOrder(lru.evictable, Reverse(keys)))
      case ArcPolicy(arc) => ArcState(TouchedAll(arc.Value(), arc.blocks, arc.capacity, Reverse(keys)))
    }

    /** LRU keeps the idle keys in a list of its own, ARC looks at the counts. */
    ghost predicate Unlisted(key: Key)
      reads Objects()
    {
      LruPolicy? ==> key !in lru.evictable
    }

    /** Every idle block may be found by an eviction, except `but`. */
    ghost predicate ListsIdleBut(but: set<Key>)
      reads Objects()
    {
      LruPolicy? ==> Elements(lru.evictable) == IdleKeys(lru.blocks) - but
    }

    /** What holds between two calls of the manager. */
    ghost predicate Settled()
      reads Objects()
    {
      Valid() && ListsIdleBut({})
    }

    /** An eviction of `n` blocks outside `protect` finds too few. */
    ghost predicate Refuses(n: nat, protect: set<Key>)
      reads Objects()
    {
      match this
      case LruPolicy(lru) => |Drop(lru.evictable, protect)| < n
      case ArcPolicy(arc) => arc.Fails(n, protect)
    }

    /** The `n` victims this policy picks: the least recently used idle blocks,
        or those of ARC's scan. */
    ghost predicate Chooses(n: nat, protect: set<Key>, victims: seq<Key>)
      reads Objects()
    {
      match this
      case LruPolicy(lru) => n <= |Drop(lru.evictable, protect)| && victims == Drop(lru.evictable, protect)[..n]
      case ArcPolicy(arc) =>
        var picks := RestartScan(arc.t1, arc.t2, IdleKeys(arc.blocks) - protect, |arc.t1|, arc.target.Floor, n);
        if n == 0 then victims == [] else picks.Some? && victims == picks.value.Order()
    }

    method Get(key: Key) returns (r: Option<Block>)
      ensures r == if key in Held() then Some(Held()[key]) else None
    {
      match this {
        case LruPolicy(lru) => r := lru.Get(key);
        case ArcPolicy(arc) => r := arc.Get(key);
      }
    }

    /** A new block, still being written. */
    method Insert(key: Key, block: Block)
      requires Settled() && key !in Held() && block.refCnt == -1
      modifies Objects()
      ensures Settled()
      ensures Held() == old(Held())[key := block]
    {
      match this {
        case LruPolicy(lru) =>
          assert IdleKeys(lru.blocks[key := block]) == IdleKeys(lru.blocks);
          lru.Insert(key, block);
          assert lru.evictable == old(lru.evictable);
        case ArcPolicy(arc) => arc.Insert(key, block);
      }
    }

    /** A block whose write failed. */
    method Remove(key: Key)
      requires Settled() && key in WritingKeys(Held())
      modifies Objects()
      ensures Settled() && OnlyForgets(old(State()), State())
      ensures Held() == old(Held()) - {key}
    {
      match this {
        case LruPolicy(lru) =>
          assert IdleKeys(lru.blocks - {key}) == IdleKeys(lru.blocks);
          assert key !in IdleKeys(lru.blocks);
          DropNothing(lru.evictable, {key});
          lru.Remove(key);
        case ArcPolicy(arc) => arc.Remove(key);
      }
    }

    method SetRefCnt(key: Key, refCnt: int)
      requires Valid() && key in Held() && Unlisted(key) && ListsIdleBut({key})
      modifies Objects()
      ensures Valid() && Unlisted(key) && ListsIdleBut({key}) && State() == old(State())
      ensures Held() == old(Held())[key := old(Held())[key].(refCnt := refCnt)]
    {
      match this {
        case LruPolicy(lru) =>
          ghost var after := lru.blocks[key := lru.blocks[key].(refCnt := refCnt)];
          assert IdleKeys(after) - {key} == IdleKeys(lru.blocks) - {key};
          lru.SetRefCnt(key, refCnt);
        case ArcPolicy(arc) => arc.SetRefCnt(key, refCnt);
      }
    }

    /** The count of `key` has just become 0. */
    method MarkEvictable(key: Key)
      requires Valid() && key in IdleKeys(Held()) && Unlisted(key) && ListsIdleBut({key})
      modifies Objects()
      ensures Settled() && Held() == old(Held()) && State() == Relisted(old(State()), key, 1, 0)
    {
      if LruPolicy? {
        lru.MarkEvictable(key);
        assert Elements(lru.evictable) == Elements(old(lru.evictable)) + {key};
      }
    }

    /** The count of `key` is about to leave 0. */
    method MarkNonEvictable(key: Key)
      requires Settled() && key in IdleKeys(Held())
      modifies Objects()
      ensures Valid() && Held() == old(Held()) && Unlisted(key) && ListsIdleBut({key})
      ensures State() == Relisted(old(State()), key, 0, 1)
    {
      if LruPolicy? {
        assert key in Elements(lru.evictable);
        lru.MarkNonEvictable(key);
        assert Elements(lru.evictable) == Elements(old(lru.evictable)) - {key};
      }
    }

    /** The manager's write of one count, with the notices the policy wants
        when a block becomes or stops being idle. */
    method Recount(key: Key, refCnt: int)
      requires Settled() && key in Held() && refCnt != Held()[key].refCnt
      modifies Objects()
      ensures Settled() && Held() == old(Held())[key := old(Held())[key].(refCnt := refCnt)]
      ensures State() == Relisted(old(State()), key, old(Held())[key].refCnt, refCnt)
    {
      var block := Get(key);
      if block.value.refCnt == 0 {
        MarkNonEvictable(key);
      } else {
        IdleIsListed(this, key);
      }
      SetRefCnt(key, refCnt);
      if refCnt == 0 {
        MarkEvictable(key);
      } else {
        IdleIsListed(this, key);
      }
    }

    method Touch(keys: seq<Key>)
      requires Settled()
      modifies Objects()
      ensures Settled() && Held() == old(Held()) && State() == old(AfterTouch(keys))
      ensures ArcPolicy? ==> UsedInTurn(old(arc.Value()), arc.Value(), Held(), arc.capacity, Reverse(keys))
      ensures LruPolicy? ==> lru.evictable == MovedUp(old(lru.evictable), Elements(old(lru.evictable)), Reverse(keys))
    {
      hide UsedInTurn, MovedUp, TouchedOnce;
      match this {
        case LruPolicy(lru) =>
          TouchedOrderIs(lru.evictable, Reverse(keys));
          lru.Touch(keys);
        case ArcPolicy(arc) => arc.Touch(keys);
      }
    }

    /** Takes exactly `n` idle blocks outside `protect`, or nothing at all. */
    method Evict(n: nat, protect: set<Key>) returns (r: Option<seq<Victim>>)
      requires Settled()
      modifies Objects()
      ensures Settled()
      ensures r.None? <==> n > 0 && old(Refuses(n, protect))
      ensures r.None? ==> Held() == old(Held()) && State() == old(State())
      ensures r.Some? ==>
        var victims := VictimKeys(r.value);
        && |victims| == n && Distinct(victims) && old(Chooses(n, protect, victims))
        && (forall k :: k in victims ==> k in IdleKeys(old(Held())) && k !in protect)
        && r.value == VictimsOf(victims, old(Held()))
        && Held() == old(Held()) - Elements(victims)
    {
      match this {
        case LruPolicy(lru) =>
          r := lru.Evict(n, protect);
          if r.Some? {
            ghost var victims := Drop(old(lru.evictable), protect)[..n];
            DropDistinct(old(lru.evictable), protect);
            EvictedLists(old(lru.blocks), old(lru.evictable), victims);
            forall k | k in victims ensures k !in protect {
              assert k in Drop(old(lru.evictable), protect);
            }
          }
        case ArcPolicy(arc) =>
          r := arc.Evict(n, protect);
          if r.Some? && n == 0 {
            assert VictimKeys(r.value) == [];
          }
      }
    }

    method Clear()
      modifies Objects()
      ensures Settled() && Held() == map[]
    {
      match this {
        case LruPolicy(lru) => lru.Clear();
        case ArcPolicy(arc) => arc.Clear();
      }
    }
  }

  lemma IdleIsListed(policy: CachePolicy, key: Key)
    requires policy.Valid() && key !in IdleKeys(policy.Held())
    requires policy.ListsIdleBut({}) || policy.ListsIdleBut({key})
    ensures policy.Unlisted(key) && policy.ListsIdleBut({key}) && policy.ListsIdleBut({})
  {
    if policy.LruPolicy? {
      assert key in policy.lru.evictable <==> key in Elements(policy.lru.evictable);
    }
  }

  lemma EvictedLists(table: Table, evictable: seq<Key>, victims: seq<Key>)
    requires Elements(evictable) == IdleKeys(table)
    ensures Elements(Drop(evictable, Elements(victims))) == IdleKeys(table - Elements(victims))
  {
    forall k ensures k in Drop(evictable, Elements(victims)) <==> k in IdleKeys(table - Elements(victims)) {
      assert k in evictable <==> k in Elements(evictable);
    }
  }

  /** LRU refuses exactly when too few unprotected blocks are idle. */
  lemma LruRefusesWhenFew(evictable: seq<Key>, table: Table, protect: set<Key>)
    requires Distinct(evictable) && Elements(evictable) == IdleKeys(table)
    ensures |Drop(evictable, protect)| == |IdleKeys(table) - protect|
  {
    DropDistinct(evictable, protect);
    DistinctLength(Drop(evictable, protect));
    assert Elements(Drop(evictable, protect)) == IdleKeys(table) - protect;
  }
}
