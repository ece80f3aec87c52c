/** The CPU slots: every allocated slot is held by one block or is free. */
module SlotPool {
  import opened Sequences
  import opened Blocks

  function SlotsOf(table: Table): set<nat> {
    set k | k in table :: table[k].id
  }

  ghost predicate OwnSlots(table: Table) {
    forall k1, k2 :: k1 in table && k2 in table && k1 != k2 ==> table[k1].id != table[k2].id
  }

  /** Live blocks and the free list partition the allocated slots. */
  ghost predicate Partitioned(table: Table, free: seq<nat>, carved: nat) {
    && OwnSlots(table)
    && Distinct(free)
    && SlotsOf(table) !! Elements(free)
    && SlotsOf(table) + Elements(free) == Below(carved)
  }

  function SlotIds(vs: seq<Victim>): (r: seq<nat>)
    ensures |r| == |vs|
    ensures forall i :: 0 <= i < |vs| ==> r[i] == vs[i].block.id
  {
    seq(|vs|, i requires 0 <= i < |vs| => vs[i].block.id)
  }

  /** The table after reserving one slot per key, all still being written. */
  function Reserved(table: Table, keys: seq<Key>, ids: seq<nat>): (r: Table)
    requires |keys| == |ids|
    ensures r.Keys == table.Keys + Elements(keys)
  {
    if keys == [] then table
    else
      var last := |keys| - 1;
      Reserved(table, keys[..last], ids[..last])[keys[last] := Block(-1, ids[last])]
  }

  /** The last reservation of a key is the one that stays. */
  lemma {:induction false} ReservedAt(table: Table, keys: seq<Key>, ids: seq<nat>, k: Key) returns (at: nat)
    requires |keys| == |ids| && k in Reserved(table, keys, ids)
    ensures k !in keys ==> k in table && Reserved(table, keys, ids)[k] == table[k]
    ensures k in keys ==> at < |keys| && keys[at] == k && Reserved(table, keys, ids)[k] == Block(-1, ids[at])
    ensures k in keys ==> forall i :: at < i < |keys| ==> keys[i] != k
  {
    at := 0;
    if keys != [] {
      var last := |keys| - 1;
      if k == keys[last] {
        at := last;
      } else {
        assert k in keys ==> k in keys[..last];
        at := ReservedAt(table, keys[..last], ids[..last], k);
      }
    }
  }

  lemma ReservedBlocks(table: Table, keys: seq<Key>, ids: seq<nat>)
    requires |keys| == |ids| && Distinct(keys) && Elements(keys) !! table.Keys
    ensures var r := Reserved(table, keys, ids);
            && (forall k :: k in table ==> r[k] == table[k])
            && (forall i :: 0 <= i < |keys| ==> r[keys[i]] == Block(-1, ids[i]))
  {
    var r := Reserved(table, keys, ids);
    forall k | k in table ensures r[k] == table[k] {
      assert k !in Elements(keys);
      var at := ReservedAt(table, keys, ids, k);
    }
    forall i | 0 <= i < |keys| ensures r[keys[i]] == Block(-1, ids[i]) {
      assert keys[i] in Elements(keys);
      var at := ReservedAt(table, keys, ids, keys[i]);
    }
  }

  lemma ReservedEach(table: Table, keys: seq<Key>, ids: seq<nat>)
    requires |keys| == |ids|
    ensures var r := Reserved(table, keys, ids);
            forall k :: k in r ==> if k in Elements(keys) then r[k].refCnt == -1 else k in table && r[k] == table[k]
  {
    var r := Reserved(table, keys, ids);
    forall k | k in r ensures if k in Elements(keys) then r[k].refCnt == -1 else k in table && r[k] == table[k] {
      var at := ReservedAt(table, keys, ids, k);
    }
  }

  lemma ReservedCounts(table: Table, keys: seq<Key>, ids: seq<nat>)
    requires |keys| == |ids| && Distinct(keys) && Elements(keys) !! table.Keys
    ensures var r := Reserved(table, keys, ids);
            && IdleKeys(r) == IdleKeys(table)
            && WritingKeys(r) == WritingKeys(table) + Elements(keys)
            && |WritingKeys(r)| == |WritingKeys(table)| + |keys|
  {
    var r := Reserved(table, keys, ids);
    ReservedEach(table, keys, ids);
    DistinctLength(keys);
    CountsOfEach(table, r, Elements(keys));
  }

  lemma CountsOfEach(table: Table, r: Table, keys: set<Key>)
    requires r.Keys == table.Keys + keys && keys !! table.Keys
    requires forall k :: k in r ==> if k in keys then r[k].refCnt == -1 else k in table && r[k] == table[k]
    ensures IdleKeys(r) == IdleKeys(table)
    ensures WritingKeys(r) == WritingKeys(table) + keys
    ensures |WritingKeys(r)| == |WritingKeys(table)| + |keys|
  {
    assert IdleKeys(r) == IdleKeys(table);
    assert WritingKeys(r) == WritingKeys(table) + keys;
  }

  lemma {:induction false} ReservedSlots(table: Table, keys: seq<Key>, ids: seq<nat>)
    requires |keys| == |ids| && Distinct(keys) && Elements(keys) !! table.Keys
    ensures SlotsOf(Reserved(table, keys, ids)) == SlotsOf(table) + Elements(ids)
  {
    if keys != [] {
      var last := |keys| - 1;
      var before := Reserved(table, keys[..last], ids[..last]);
      assert Elements(keys) == Elements(keys[..last]) + {keys[last]};
      assert Elements(ids) == Elements(ids[..last]) + {ids[last]};
      ReservedSlots(table, keys[..last], ids[..last]);
      SlotsOfInsert(before, keys[last], Block(-1, ids[last]));
    }
  }

  lemma SlotsOfInsert(table: Table, key: Key, block: Block)
    requires key !in table
    ensures SlotsOf(table[key := block]) == SlotsOf(table) + {block.id}
  {
    var r := table[key := block];
    forall id | id in SlotsOf(table) + {block.id} ensures id in SlotsOf(r) {
      if id == block.id {
        assert r[key].id == id;
      } else {
        var k :| k in table && table[k].id == id;
        assert r[k].id == id;
      }
    }
    forall id | id in SlotsOf(r) ensures id in SlotsOf(table) + {block.id} {
      var k :| k in r && r[k].id == id;
      assert k != key ==> table[k].id == id;
    }
  }

  lemma {:induction false} SlotsSize(table: Table)
    requires OwnSlots(table)
    ensures |SlotsOf(table)| == |table|
    decreases |table|
  {
    if table != map[] {
      var k :| k in table;
      var rest := table - {k};
      assert table.Keys == rest.Keys + {k} && rest[k := table[k]] == table;
      SlotsSize(rest);
      SlotsOfInsert(rest, k, table[k]);
      assert table[k].id !in SlotsOf(rest);
    }
  }

  /** As many slots are free as blocks are missing. */
  lemma FreeSize(table: Table, free: seq<nat>, carved: nat)
    requires Partitioned(table, free, carved)
    ensures |free| + |table| == carved
  {
    SlotsSize(table);
    DistinctLength(free);
    BelowSize(carved);
    assert |SlotsOf(table) + Elements(free)| == |SlotsOf(table)| + |Elements(free)|;
  }

  /** Reserving free slots keeps the partition and gives every key its own. */
  lemma ReserveKeepsPartition(table: Table, free: seq<nat>, carved: nat, keys: seq<Key>, ids: seq<nat>,
                              free': seq<nat>, carved': nat)
    requires Partitioned(table, free, carved)
    requires |keys| == |ids| && Distinct(keys) && Elements(keys) !! table.Keys
    requires Distinct(ids) && Distinct(free') && Elements(ids) !! Elements(free')
    requires Elements(ids) + Elements(free') == Elements(free) + (Below(carved') - Below(carved))
    requires carved <= carved'
    ensures Partitioned(Reserved(table, keys, ids), free', carved')
  {
    var r := Reserved(table, keys, ids);
    ReservedBlocks(table, keys, ids);
    ReservedSlots(table, keys, ids);
    assert Below(carved) <= Below(carved');
    forall k1, k2 | k1 in r && k2 in r && k1 != k2 ensures r[k1].id != r[k2].id {
      if k1 in table && k2 in table {
      } else if k1 !in table && k2 !in table {
        assert k1 in Elements(keys) && k2 in Elements(keys);
        var i :| 0 <= i < |keys| && keys[i] == k1;
        var j :| 0 <= j < |keys| && keys[j] == k2;
        assert r[keys[i]].id == ids[i] && r[keys[j]].id == ids[j];
      } else {
        var (old', new') := if k1 in table then (k1, k2) else (k2, k1);
        assert new' in Elements(keys);
        var j :| 0 <= j < |keys| && keys[j] == new';
        assert r[keys[j]].id == ids[j] && ids[j] in Elements(ids);
        assert table[old'].id in SlotsOf(table);
      }
    }
  }

  /** Reserving the same key twice drops a slot on the floor. */
  lemma DuplicateKeyLosesASlot(table: Table, free: seq<nat>, carved: nat, keys: seq<Key>, ids: seq<nat>,
                               free': seq<nat>, carved': nat, i: nat, j: nat)
    requires |keys| == |ids| && Distinct(ids) && Elements(ids) !! SlotsOf(table) + Elements(free')
    requires Elements(ids) <= Below(carved')
    requires i < j < |keys| && keys[i] == keys[j]
    ensures !Partitioned(Reserved(table, keys, ids), free', carved')
  {
    var r := Reserved(table, keys, ids);
    forall k | k in r ensures r[k].id != ids[i] {
      var at := ReservedAt(table, keys, ids, k);
      if k !in keys {
        assert table[k].id in SlotsOf(table) && ids[i] in Elements(ids);
      }
    }
    assert ids[i] in Elements(ids) && ids[i] !in SlotsOf(r);
  }

  /** The keys of one store must differ: that is exactly what keeps the pool whole. */
  lemma ReserveKeepsPartitionIff(table: Table, free: seq<nat>, carved: nat, keys: seq<Key>, ids: seq<nat>,
                                 free': seq<nat>, carved': nat)
    requires Partitioned(table, free, carved)
    requires |keys| == |ids| && Elements(keys) !! table.Keys
    requires Distinct(ids) && Distinct(free') && Elements(ids) !! Elements(free')
    requires Elements(ids) + Elements(free') == Elements(free) + (Below(carved') - Below(carved))
    requires carved <= carved'
    ensures Partitioned(Reserved(table, keys, ids), free', carved') <==> Distinct(keys)
  {
    if Distinct(keys) {
      ReserveKeepsPartition(table, free, carved, keys, ids, free', carved');
    } else {
      var i, j :| 0 <= i < j < |keys| && keys[i] == keys[j];
      assert Below(carved) <= Below(carved');
      DuplicateKeyLosesASlot(table, free, carved, keys, ids, free', carved', i, j);
    }
  }

  /** Evicted blocks give their slots to the free list. */
  lemma EvictKeepsPartition(table: Table, free: seq<nat>, carved: nat, victims: seq<Key>)
    requires Partitioned(table, free, carved)
    requires Distinct(victims) && Elements(victims) <= table.Keys
    requires forall k :: k in victims ==> k in table
    ensures Partitioned(table - Elements(victims), free + SlotIds(VictimsOf(victims, table)), carved)
  {
    var ids := SlotIds(VictimsOf(victims, table));
    var rest := table - Elements(victims);
    forall i | 0 <= i < |victims| ensures ids[i] == table[victims[i]].id && ids[i] in SlotsOf(table) {}
    forall id | id in SlotsOf(table) ensures id in SlotsOf(rest) || id in ids {
      var k :| k in table && table[k].id == id;
      if k in victims {
        var i :| 0 <= i < |victims| && victims[i] == k;
        assert ids[i] == id;
      } else {
        assert rest[k].id == id;
      }
    }
    forall id | id in SlotsOf(rest) ensures id in SlotsOf(table) && id !in ids {
      var k :| k in rest && rest[k].id == id;
      assert table[k].id == id;
    }
    forall i, j | 0 <= i < |free| && 0 <= j < |ids| ensures free[i] != ids[j] {
      assert free[i] in Elements(free);
    }
    assert Elements(free + ids) == Elements(free) + Elements(ids);
  }

  /** A change of a reference count moves no slot. */
  lemma RecountKeepsPartition(table: Table, key: Key, refCnt: int, free: seq<nat>, carved: nat)
    requires key in table && Partitioned(table, free, carved)
    ensures Partitioned(table[key := table[key].(refCnt := refCnt)], free, carved)
  {
    var r := table[key := table[key].(refCnt := refCnt)];
    assert forall k :: k in r <==> k in table;
    assert forall k :: k in r ==> r[k].id == table[k].id;
    assert SlotsOf(r) == SlotsOf(table) by {
      forall id | id in SlotsOf(table) ensures id in SlotsOf(r) {
        var k :| k in table && table[k].id == id;
        assert r[k].id == id;
      }
    }
  }

  function CountDelta(before: int, after: int, value: int): int {
    (if after == value then 1 else 0) - (if before == value then 1 else 0)
  }

  /** How a change of one count changes the number of blocks at `value`. */
  lemma RecountSize(table: Table, key: Key, refCnt: int, value: int)
    requires key in table
    ensures var r := table[key := table[key].(refCnt := refCnt)];
            |KeysAt(r, value)| == |KeysAt(table, value)| + CountDelta(table[key].refCnt, refCnt, value)
  {
    var r := table[key := table[key].(refCnt := refCnt)];
    var others := KeysAt(table, value) - {key};
    assert KeysAt(r, value) == others + (if refCnt == value then {key} else {});
    assert KeysAt(table, value) == others + (if table[key].refCnt == value then {key} else {});
  }

  /** The manager's counters describe the table. */
  ghost predicate Consistent(table: Table, free: seq<nat>, carved: nat, idle: int, writing: int) {
    && Partitioned(table, free, carved)
    && idle == |IdleKeys(table)| && writing == |WritingKeys(table)|
    && forall k :: k in table ==> table[k].refCnt >= -1
  }

  lemma RecountConsistent(table: Table, key: Key, refCnt: int, free: seq<nat>, carved: nat, idle: int, writing: int)
    requires Consistent(table, free, carved, idle, writing) && key in table && refCnt >= -1
    ensures Consistent(table[key := table[key].(refCnt := refCnt)], free, carved,
                       idle + CountDelta(table[key].refCnt, refCnt, 0),
                       writing + CountDelta(table[key].refCnt, refCnt, -1))
  {
    RecountKeepsPartition(table, key, refCnt, free, carved);
    RecountSize(table, key, refCnt, 0);
    RecountSize(table, key, refCnt, -1);
  }

  lemma EvictConsistent(table: Table, victims: seq<Key>, free: seq<nat>, carved: nat, idle: int, writing: int)
    requires Consistent(table, free, carved, idle, writing)
    requires Distinct(victims) && forall k :: k in victims ==> k in IdleKeys(table)
    ensures Consistent(table - Elements(victims), free + SlotIds(VictimsOf(victims, table)), carved,
                       idle - |victims|, writing)
  {
    EvictKeepsPartition(table, free, carved, victims);
    DistinctLength(victims);
    assert IdleKeys(table - Elements(victims)) == IdleKeys(table) - Elements(victims);
    assert WritingKeys(table - Elements(victims)) == WritingKeys(table);
  }

  /** A failed write removes its block and frees the slot. */
  lemma RemoveConsistent(table: Table, key: Key, free: seq<nat>, carved: nat, idle: int, writing: int)
    requires Consistent(table, free, carved, idle, writing) && key in table && table[key].refCnt == -1
    ensures Consistent(table - {key}, free + [table[key].id], carved, idle, writing - 1)
  {
    EvictKeepsPartition(table, free, carved, [key]);
    assert Elements([key]) == {key};
    assert SlotIds(VictimsOf([key], table)) == [table[key].id];
    assert IdleKeys(table - {key}) == IdleKeys(table);
    assert WritingKeys(table - {key}) == WritingKeys(table) - {key};
  }

  lemma ReserveConsistent(table: Table, free: seq<nat>, carved: nat, idle: int, writing: int,
                          keys: seq<Key>, ids: seq<nat>, free': seq<nat>, carved': nat)
    requires Consistent(table, free, carved, idle, writing)
    requires |keys| == |ids| && Distinct(keys) && Elements(keys) !! table.Keys
    requires Distinct(ids) && Distinct(free') && Elements(ids) !! Elements(free')
    requires Elements(ids) + Elements(free') == Elements(free) + (Below(carved') - Below(carved))
    requires carved <= carved'
    ensures Consistent(Reserved(table, keys, ids), free', carved', idle, writing + |keys|)
  {
    ReserveKeepsPartition(table, free, carved, keys, ids, free', carved');
    ReservedCounts(table, keys, ids);
    ReservedEach(table, keys, ids);
  }
}
