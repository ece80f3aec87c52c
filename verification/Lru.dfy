/** `LRUCachePolicy`: a table of blocks and an ordered list of the idle ones,
    least recently used first. */
module Lru {
  import opened Sequences
  import opened Blocks

  class LruCachePolicy {
    var blocks: Table
    var evictable: seq<Key>

    /** Every listed key is an idle block, listed once. */
    ghost predicate Valid()
      reads this
    {
      Distinct(evictable) && forall k :: k in evictable ==> k in IdleKeys(blocks)
    }

    /** No idle block is missing from the list. */
    ghost predicate ListsIdle()
      reads this
    {
      Elements(evictable) == IdleKeys(blocks)
    }

    constructor ()
      ensures Valid() && ListsIdle()
      ensures blocks == map[] && evictable == []
    {
      blocks, evictable := map[], [];
    }

    method Get(key: Key) returns (r: Option<Block>)
      ensures r == if key in blocks then Some(blocks[key]) else None
    {
      r := if key in blocks then Some(blocks[key]) else None;
    }

    method Insert(key: Key, block: Block)
      requires Valid() && key !in blocks
      modifies this
      ensures Valid()
      ensures blocks == old(blocks)[key := block]
      ensures evictable == old(evictable) + if block.refCnt == 0 then [key] else []
    {
      assert key !in IdleKeys(blocks);
      blocks := blocks[key := block];
      if block.refCnt == 0 {
        evictable := evictable + [key];
      }
    }

    method Remove(key: Key)
      requires Valid() && key in blocks
      modifies this
      ensures Valid()
      ensures blocks == old(blocks) - {key}
      ensures evictable == Drop(old(evictable), {key})
    {
      DropDistinct(evictable, {key});
      blocks, evictable := blocks - {key}, Drop(evictable, {key});
    }

    /** The manager writes the reference count of a block it holds. */
    method SetRefCnt(key: Key, refCnt: int)
      requires Valid() && key in blocks && key !in evictable
      modifies this`blocks
      ensures Valid()
      ensures blocks == old(blocks)[key := old(blocks)[key].(refCnt := refCnt)]
    {
      blocks := blocks[key := blocks[key].(refCnt := refCnt)];
    }

    /** A key that is listed already keeps its place. */
    method MarkEvictable(key: Key)
      requires Valid() && key in IdleKeys(blocks)
      modifies this`evictable
      ensures Valid() && evictable == if key in old(evictable) then old(evictable) else old(evictable) + [key]
    {
      if key !in evictable {
        evictable := evictable + [key];
      }
    }

    method MarkNonEvictable(key: Key)
      requires Valid() && key in evictable
      modifies this`evictable
      ensures Valid() && evictable == Drop(old(evictable), {key})
    {
      DropDistinct(evictable, {key});
      evictable := Drop(evictable, {key});
    }

    /** Moves the idle keys to the most recent end, last key first. */
    method Touch(keys: seq<Key>)
      requires Valid()
      modifies this`evictable
      ensures Valid() && evictable == TouchedOrder(old(evictable), Reverse(keys))
      ensures Elements(evictable) == Elements(old(evictable))
    {
      var reversed := Reverse(keys);
      var i := 0;
      while i < |reversed|
        invariant 0 <= i <= |reversed|
        invariant Valid() && Elements(evictable) == Elements(old(evictable))
        invariant evictable == TouchedOrder(old(evictable), reversed[..i])
      {
        assert reversed[..i + 1][..i] == reversed[..i];
        var key := reversed[i];
        if key in evictable {
          DropDistinct(evictable, {key});
          evictable := Drop(evictable, {key}) + [key];
        }
        i := i + 1;
      }
      assert reversed[..i] == reversed;
    }

    /** Takes the `n` least recently used idle blocks outside `protect`, or
        changes nothing when there are fewer. */
    method Evict(n: nat, protect: set<Key>) returns (r: Option<seq<Victim>>)
      requires Valid()
      modifies this
      ensures Valid()
      ensures r.None? <==> |Drop(old(evictable), protect)| < n
      ensures r.None? ==> blocks == old(blocks) && evictable == old(evictable)
      ensures r.Some? ==>
        var victims := Drop(old(evictable), protect)[..n];
        && (forall k :: k in victims ==> k in IdleKeys(old(blocks)))
        && r.value == VictimsOf(victims, old(blocks))
        && blocks == old(blocks) - Elements(victims)
        && evictable == Drop(old(evictable), Elements(victims))
    {
      if n == 0 {
        assert Elements(Drop(evictable, protect)[..0]) == {};
        DropNothing(evictable, {});
        return Some([]);
      }
      var candidates := Candidates(n, protect);
      if |candidates| < n {
        return None;
      }
      DropDistinct(evictable, Elements(candidates));
      assert forall k :: k in candidates ==> k in IdleKeys(blocks);
      r := Some(VictimsOf(candidates, blocks));
      evictable := Drop(evictable, Elements(candidates));
      blocks := blocks - Elements(candidates);
    }

    /** The scan of the list from its least recent end, up to `n` keys. */
    method Candidates(n: nat, protect: set<Key>) returns (candidates: seq<Key>)
      requires Valid() && n > 0
      ensures var eligible := Drop(evictable, protect);
              candidates == if |eligible| < n then eligible else eligible[..n]
    {
      hide Keep, LruCachePolicy.Valid;
      ghost var keep := Elements(evictable) - protect;
      candidates := [];
      var i := 0;
      while i < |evictable| && |candidates| < n
        invariant 0 <= i <= |evictable| && |candidates| <= n
        invariant candidates == Keep(evictable[..i], keep)
      {
        KeepStep(evictable, i, keep);
        assert evictable[i] in keep <==> evictable[i] !in protect;
        if evictable[i] !in protect {
          candidates := candidates + [evictable[i]];
        }
        i := i + 1;
      }
      KeepPrefix(evictable, i, keep);
      assert evictable[..|evictable|] == evictable;
    }

    method Clear()
      modifies this
      ensures Valid() && ListsIdle() && blocks == map[] && evictable == []
    {
      blocks, evictable := map[], [];
    }
  }

  /** The list after moving each of `keys` that it holds to its end, in turn. */
  ghost function TouchedOrder(order: seq<Key>, keys: seq<Key>): seq<Key> {
    if keys == [] then order
    else
      var before := TouchedOrder(order, keys[..|keys| - 1]);
      var key := keys[|keys| - 1];
      if key in before then Drop(before, {key}) + [key] else before
  }

  /** `later` may only come out of `order` after `sooner` has. */
  ghost predicate LeavesBefore(order: seq<Key>, sooner: Key, later: Key) {
    forall i, j :: 0 <= i < |order| && 0 <= j < |order| && order[i] == sooner && order[j] == later ==> i < j
  }

  /** Along a chain of blocks the deeper block always leaves before the
      shallower one, so what survives is a usable prefix. */
  ghost predicate ChainOrdered(order: seq<Key>, chain: seq<Key>) {
    forall i, j :: 0 <= i < j < |chain| ==> LeavesBefore(order, chain[j], chain[i])
  }

  /** Touching moves the idle keys, in the order of their last touch, behind all
      others. */
  lemma {:induction false} TouchedOrderIs(order: seq<Key>, keys: seq<Key>)
    ensures TouchedOrder(order, keys) == MovedUp(order, Elements(order), keys)
    ensures Distinct(keys) ==> TouchedOrder(order, keys) == Drop(order, Elements(keys)) + Keep(keys, Elements(order))
  {
    hide Keep, Drop, LastUses, MovedUp;
    if keys == [] {
      NoneMovedUp(order, Elements(order));
    } else {
      var front, key := keys[..|keys| - 1], keys[|keys| - 1];
      TouchedOrderIs(order, front);
      assert keys == front + [key];
      MovedUpOneMore(order, Elements(order), front, key);
      if key !in order {
        DropNothing(MovedUp(order, Elements(order), front), {key});
      }
    }
    if Distinct(keys) {
      MovedUpInTurn(order, Elements(order), keys);
    }
  }

  lemma MovedUpInTurn(list: seq<Key>, members: set<Key>, used: seq<Key>)
    requires Distinct(used)
    ensures MovedUp(list, members, used) == Drop(list, Elements(used)) + Keep(used, members)
  {
    LastUsesOnce(used);
  }

  /** Touching a chain puts it in chain order, whatever was idle before. */
  lemma TouchOrdersChain(order: seq<Key>, chain: seq<Key>)
    requires Distinct(order) && Distinct(chain)
    ensures ChainOrdered(TouchedOrder(order, Reverse(chain)), chain)
  {
    hide LeavesBefore, TouchedOrder, Reverse, Distinct;
    forall i, j | 0 <= i < j < |chain| ensures LeavesBefore(TouchedOrder(order, Reverse(chain)), chain[j], chain[i]) {
      TouchOrdersPair(order, chain, i, j);
    }
  }

  lemma TouchOrdersPair(order: seq<Key>, chain: seq<Key>, i: nat, j: nat)
    requires Distinct(order) && Distinct(chain) && i < j < |chain|
    ensures LeavesBefore(TouchedOrder(order, Reverse(chain)), chain[j], chain[i])
  {
    hide TouchedOrder, Keep, Drop, Distinct, LeavesBefore, Elements, MovedUp, LastUses;
    var keys := Reverse(chain);
    ReverseDistinct(chain);
    TouchedOrderIs(order, keys);
    InElements(keys);
    assert keys[|chain| - 1 - j] == chain[j] && keys[|chain| - 1 - i] == chain[i];
    LaterTouchedLater(Drop(order, Elements(keys)), keys, Elements(order), |chain| - 1 - j, |chain| - 1 - i);
  }

  lemma InElements(keys: seq<Key>)
    ensures forall k :: k in Elements(keys) <==> k in keys
  {}

  lemma ReverseDistinct(keys: seq<Key>)
    requires Distinct(keys)
    ensures Distinct(Reverse(keys))
  {
    hide Reverse;
  }

  /** Of the keys put at the end, those touched later leave later. */
  lemma LaterTouchedLater(head: seq<Key>, keys: seq<Key>, idle: set<Key>, i: nat, j: nat)
    requires Distinct(keys) && i < j < |keys| && forall k :: k in head ==> k !in keys
    ensures LeavesBefore(head + Keep(keys, idle), keys[i], keys[j])
  {
    var tail := Keep(keys, idle);
    var all := head + tail;
    forall p, q | 0 <= p < |all| && 0 <= q < |all| && all[p] == keys[i] && all[q] == keys[j] ensures p < q {
      InTail(head, tail, keys, i, p);
      InTail(head, tail, keys, j, q);
      KeepOrder(keys, idle, i, j, p - |head|, q - |head|);
    }
  }

  lemma InTail(head: seq<Key>, tail: seq<Key>, keys: seq<Key>, i: nat, p: nat)
    requires i < |keys| && p < |head + tail| && (head + tail)[p] == keys[i]
    requires forall k :: k in head ==> k !in keys
    ensures p >= |head| && tail[p - |head|] == keys[i]
  {
    assert keys[i] in keys;
    assert forall q :: 0 <= q < |head| ==> (head + tail)[q] in head;
  }

  /** Filtering keeps the order of the elements it keeps. */
  lemma {:induction false} KeepOrder(s: seq<Key>, keep: set<Key>, i: nat, j: nat, p: nat, q: nat)
    requires Distinct(s) && i < j < |s|
    requires p < |Keep(s, keep)| && q < |Keep(s, keep)|
    requires Keep(s, keep)[p] == s[i] && Keep(s, keep)[q] == s[j]
    ensures p < q
  {
    KeepDistinct(s, keep);
    assert s == s[..j] + s[j..];
    KeepAppend(s[..j], s[j..], keep);
    assert s[i] in s[..j] && s[j] == s[j..][0] && s[i] in Keep(s, keep) && s[j] in Keep(s, keep);
    SideBySide(Keep(s[..j], keep), Keep(s[j..], keep), s[i], s[j], p, q);
  }

  lemma SideBySide(left: seq<Key>, right: seq<Key>, a: Key, b: Key, p: nat, q: nat)
    requires Distinct(left + right) && a in left && b in right
    requires p < |left + right| && q < |left + right| && (left + right)[p] == a && (left + right)[q] == b
    ensures p < q
  {
    var i :| 0 <= i < |left| && left[i] == a;
    var j :| 0 <= j < |right| && right[j] == b;
    assert (left + right)[i] == a && (left + right)[|left| + j] == b;
  }

  /** Forgetting keys keeps the chain order. */
  lemma DropKeepsChain(order: seq<Key>, gone: set<Key>, chain: seq<Key>)
    requires Distinct(order) && ChainOrdered(order, chain)
    ensures ChainOrdered(Drop(order, gone), chain)
  {
    var after := Drop(order, gone);
    DropDistinct(order, gone);
    forall i, j, p, q | 0 <= i < j < |chain| && 0 <= p < |after| && 0 <= q < |after|
                        && after[p] == chain[j] && after[q] == chain[i]
      ensures p < q
    {
      assert chain[j] in order && chain[i] in order;
      var a :| 0 <= a < |order| && order[a] == chain[j];
      var b :| 0 <= b < |order| && order[b] == chain[i];
      assert LeavesBefore(order, chain[j], chain[i]);
      assert a < b;
      KeepOrder(order, Elements(order) - gone, a, b, p, q);
    }
  }

  /** So does listing, as most recent, a key from outside the chain. */
  lemma AppendKeepsChain(order: seq<Key>, key: Key, chain: seq<Key>)
    requires ChainOrdered(order, chain) && key !in chain
    ensures ChainOrdered(order + [key], chain)
  {
    forall i, j, p, q | 0 <= i < j < |chain| && 0 <= p < |order + [key]| && 0 <= q < |order + [key]|
                        && (order + [key])[p] == chain[j] && (order + [key])[q] == chain[i]
      ensures p < q
    {
      assert LeavesBefore(order, chain[j], chain[i]);
    }
  }

  /** So does touching keys from outside the chain. */
  lemma {:induction false} TouchKeepsChain(order: seq<Key>, keys: seq<Key>, chain: seq<Key>)
    requires Distinct(order) && ChainOrdered(order, chain)
    requires forall k :: k in keys ==> k !in chain
    ensures Distinct(TouchedOrder(order, keys)) && ChainOrdered(TouchedOrder(order, keys), chain)
  {
    if keys != [] {
      var front, key := keys[..|keys| - 1], keys[|keys| - 1];
      TouchKeepsChain(order, front, chain);
      var before := TouchedOrder(order, front);
      DropKeepsChain(before, {key}, chain);
      DropDistinct(before, {key});
      AppendKeepsChain(Drop(before, {key}), key, chain);
    }
  }

  /** What the manager may do to the list between a touch and an eviction. */
  datatype ListOp = List(key: Key) | Unlist(gone: set<Key>) | TouchKeys(keys: seq<Key>)

  /** The list after `ops`; a key already listed is not listed again. */
  ghost function RunOrder(order: seq<Key>, ops: seq<ListOp>): seq<Key> {
    if ops == [] then order else AfterOp(RunOrder(order, ops[..|ops| - 1]), ops[|ops| - 1])
  }

  ghost function AfterOp(order: seq<Key>, op: ListOp): seq<Key> {
    match op
    case List(key) => if key in order then order else order + [key]
    case Unlist(gone) => Drop(order, gone)
    case TouchKeys(keys) => TouchedOrder(order, Reverse(keys))
  }

  lemma RunOneMore(order: seq<Key>, ops: seq<ListOp>, op: ListOp)
    ensures RunOrder(order, ops + [op]) == AfterOp(RunOrder(order, ops), op)
  {
    assert (ops + [op])[..|ops|] == ops;
  }

  /** The operation names no block of the chain, or lists one while no shallower
      one is listed, as when a load or store of the chain completes from its
      deep end. */
  ghost predicate KeepsChain(order: seq<Key>, op: ListOp, chain: seq<Key>) {
    match op
    case List(key) => key in order || NoneShallower(order, chain, key)
    case Unlist(gone) => true
    case TouchKeys(keys) => forall k :: k in keys ==> k !in chain
  }

  ghost predicate NoneShallower(order: seq<Key>, chain: seq<Key>, key: Key) {
    forall h, i :: 0 <= h < i < |chain| && chain[i] == key ==> chain[h] !in order
  }

  /** A block that becomes idle again leaves the chain in order exactly when no
      shallower block is idle. */
  lemma ListKeepsChainIff(order: seq<Key>, chain: seq<Key>, key: Key)
    requires ChainOrdered(order, chain) && Distinct(chain) && key !in order
    ensures ChainOrdered(order + [key], chain) <==> NoneShallower(order, chain, key)
  {
    var after := order + [key];
    if NoneShallower(order, chain, key) {
      forall i, j, p, q | 0 <= i < j < |chain| && 0 <= p < |after| && 0 <= q < |after|
                          && after[p] == chain[j] && after[q] == chain[i]
        ensures p < q
      {
        assert LeavesBefore(order, chain[j], chain[i]);
        assert q < |order| ==> order[q] in order;
      }
    } else {
      var h, i :| 0 <= h < i < |chain| && chain[i] == key && chain[h] in order;
      var q :| 0 <= q < |order| && order[q] == chain[h];
      assert after[q] == chain[h] && after[|order|] == chain[i];
      assert !LeavesBefore(after, chain[i], chain[h]);
    }
  }

  /** The blocks of a chain at the given depths. */
  function AtDepths(chain: seq<Key>, depths: seq<nat>): (r: seq<Key>)
    requires forall k :: 0 <= k < |depths| ==> depths[k] < |chain|
    ensures |r| == |depths|
  {
    seq(|depths|, k requires 0 <= k < |depths| => chain[depths[k]])
  }

  ghost predicate DeepestFirst(depths: seq<nat>) {
    forall x, y :: 0 <= x < y < |depths| ==> depths[x] > depths[y]
  }

  /** When a load or a store of blocks of the chain completes, and none of the
      chain is idle, the chain is in order afterwards exactly when its blocks
      complete deepest first. */
  lemma CompletionKeepsChainIff(order: seq<Key>, chain: seq<Key>, depths: seq<nat>)
    requires Distinct(chain) && Distinct(depths) && forall k :: 0 <= k < |depths| ==> depths[k] < |chain|
    requires forall k :: k in chain ==> k !in order
    ensures ChainOrdered(order + AtDepths(chain, depths), chain) <==> DeepestFirst(depths)
  {
    var done := AtDepths(chain, depths);
    var after := order + done;
    if DeepestFirst(depths) {
      forall i, j, p, q | 0 <= i < j < |chain| && 0 <= p < |after| && 0 <= q < |after|
                          && after[p] == chain[j] && after[q] == chain[i]
        ensures p < q
      {
        ListedLater(order, chain, depths, p, j);
        ListedLater(order, chain, depths, q, i);
      }
    } else {
      var x, y :| 0 <= x < y < |depths| && depths[x] <= depths[y];
      assert after[|order| + x] == chain[depths[x]] && after[|order| + y] == chain[depths[y]];
      assert !LeavesBefore(after, chain[depths[y]], chain[depths[x]]);
    }
  }

  lemma ListedLater(order: seq<Key>, chain: seq<Key>, depths: seq<nat>, p: nat, i: nat)
    requires Distinct(chain) && forall k :: 0 <= k < |depths| ==> depths[k] < |chain|
    requires forall k :: k in chain ==> k !in order
    requires i < |chain| && p < |order| + |depths| && (order + AtDepths(chain, depths))[p] == chain[i]
    ensures p >= |order| && depths[p - |order|] == i
  {
    assert forall q :: 0 <= q < |order| ==> order[q] !in chain;
  }

  /** Evictions, pins, touches that do not name the chain, and completions from
      its deep end leave a chain in order. */
  lemma {:induction false} RunKeepsChain(order: seq<Key>, ops: seq<ListOp>, chain: seq<Key>)
    requires Distinct(order) && Distinct(chain) && ChainOrdered(order, chain)
    requires forall i :: 0 <= i < |ops| ==> KeepsChain(RunOrder(order, ops[..i]), ops[i], chain)
    ensures Distinct(RunOrder(order, ops)) && ChainOrdered(RunOrder(order, ops), chain)
  {
    if ops == [] {
    } else {
      var front, op := ops[..|ops| - 1], ops[|ops| - 1];
      assert forall i :: 0 <= i < |front| ==> front[i] == ops[i] && front[..i] == ops[..i];
      RunKeepsChain(order, front, chain);
      var before := RunOrder(order, front);
      assert KeepsChain(before, op, chain);
      match op {
        case List(key) =>
          if key !in before { ListKeepsChainIff(before, chain, key); }
        case Unlist(gone) =>
          DropKeepsChain(before, gone, chain);
          DropDistinct(before, gone);
        case TouchKeys(keys) => TouchKeepsChain(before, Reverse(keys), chain);
      }
    }
  }

  /** Touch a chain, then let any such run happen: an eviction that protects none
      of the chain and takes a block of it also takes every deeper block that is
      idle. */
  lemma SurvivorsAreAPrefix(order: seq<Key>, chain: seq<Key>, ops: seq<ListOp>, n: nat, protect: set<Key>,
                            i: nat, j: nat)
    requires Distinct(order) && Distinct(chain)
    requires var touched := TouchedOrder(order, Reverse(chain));
             forall p :: 0 <= p < |ops| ==> KeepsChain(RunOrder(touched, ops[..p]), ops[p], chain)
    requires forall k :: k in chain ==> k !in protect
    requires i < j < |chain|
    ensures var now := RunOrder(TouchedOrder(order, Reverse(chain)), ops);
            n <= |Drop(now, protect)| && chain[j] in now && chain[i] in Drop(now, protect)[..n]
            ==> chain[j] in Drop(now, protect)[..n]
  {
    var touched := TouchedOrder(order, Reverse(chain));
    TouchOrdersChain(order, chain);
    TouchedDistinct(order, Reverse(chain));
    RunKeepsChain(touched, ops, chain);
    var now := RunOrder(touched, ops);
    if n <= |Drop(now, protect)| && chain[j] in now && chain[i] in Drop(now, protect)[..n] {
      EvictionTakesSuffix(now, chain, n, protect, i, j);
    }
  }

  /** A chain of two blocks is touched and both are pinned. When they complete
      shallow block first, the next eviction takes the shallow one and leaves
      the deep one; and so it does when only the deep block was pinned. */
  lemma ShallowBlockFirst()
    ensures RunOrder([2, 1], [Unlist({1, 2}), List(1), List(2)]) == [1, 2]
    ensures RunOrder([2, 1], [Unlist({2})]) == [1]
    ensures ChainOrdered([2, 1], [1, 2]) && !ChainOrdered([1, 2], [1, 2])
  {
    hide Drop, RunOrder;
    var both: seq<Key> := [2, 1];
    PinOneOrBoth();
    var none: seq<ListOp>, one, two := [], [Unlist({1, 2})], [Unlist({1, 2}), List(1)];
    RunOneMore(both, none, Unlist({2}));
    RunOneMore(both, none, Unlist({1, 2}));
    RunOneMore(both, one, List(1));
    RunOneMore(both, two, List(2));
    assert none + [Unlist({2})] == [Unlist({2})] && none + [Unlist({1, 2})] == one && one + [List(1)] == two;
    assert two + [List(2)] == [Unlist({1, 2}), List(1), List(2)];
    assert !LeavesBefore([1, 2], 2, 1) by {
      assert [1, 2][1] == 2 && [1, 2][0] == 1;
    }
  }

  lemma PinOneOrBoth()
    ensures RunOrder([2, 1], []) == [2, 1]
    ensures Drop<Key>([2, 1], {2}) == [1] && Drop<Key>([2, 1], {1, 2}) == []
  {
    hide Keep;
    var deep: seq<Key>, shallow: seq<Key> := [2], [1];
    assert deep + shallow == [2, 1];
    DropAppend(deep, shallow, {2});
    DropNothing(shallow, {2});
    KeepNone(deep, Elements(deep) - {2});
    KeepNone(deep + shallow, Elements(deep + shallow) - {1, 2});
  }

  lemma {:induction false} TouchedDistinct(order: seq<Key>, keys: seq<Key>)
    requires Distinct(order)
    ensures Distinct(TouchedOrder(order, keys))
  {
    if keys != [] {
      TouchedDistinct(order, keys[..|keys| - 1]);
      DropDistinct(TouchedOrder(order, keys[..|keys| - 1]), {keys[|keys| - 1]});
    }
  }

  /** An eviction that protects none of a chain in chain order takes a suffix
      of its idle blocks: with a block goes every idle block deeper in the
      chain. */
  lemma EvictionTakesSuffix(order: seq<Key>, chain: seq<Key>, n: nat, protect: set<Key>, i: nat, j: nat)
    requires Distinct(order) && ChainOrdered(order, chain)
    requires forall k :: k in chain ==> k !in protect
    requires n <= |Drop(order, protect)|
    requires i < j < |chain| && chain[j] in order
    requires chain[i] in Drop(order, protect)[..n]
    ensures chain[j] in Drop(order, protect)[..n]
  {
    var eligible := Drop(order, protect);
    DropKeepsChain(order, protect, chain);
    var p :| 0 <= p < n && eligible[p] == chain[i];
    assert chain[j] in eligible;
    var q :| 0 <= q < |eligible| && eligible[q] == chain[j];
    assert LeavesBefore(eligible, chain[j], chain[i]);
  }
}
