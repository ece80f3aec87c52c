/** `ARCCachePolicy`: recent (T1) and frequent (T2) blocks, the ghosts of
    evicted ones (B1, B2) and an adaptive target for the size of T1. */
module Arc {
  import opened Sequences
  import opened Blocks

  function Min(a: int, b: int): int { if a < b then a else b }
  function Max(a: int, b: int): int { if a < b then b else a }
  function RealMax(a: real, b: real): real { if a < b then b else a }
  function RealMin(a: real, b: real): real { if a < b then a else b }

  /** A ghost list after ageing out its oldest entries beyond `capacity`. */
  function Trimmed(ghosts: seq<Key>, capacity: nat): (r: seq<Key>)
    ensures |r| == Min(|ghosts|, capacity) && r == ghosts[|ghosts| - |r|..]
  {
    if |ghosts| <= capacity then ghosts else ghosts[|ghosts| - capacity..]
  }

  /** The lists and the target, as a value. */
  datatype Lists = Lists(t1: seq<Key>, t2: seq<Key>, b1: seq<Key>, b2: seq<Key>, target: real)

  function ToEnd(list: seq<Key>, key: Key): seq<Key> { Drop(list, {key}) + [key] }

  /** One use of a key. A ready block of T1 has now been used twice; a ghost hit
      moves the target towards the list it was evicted from. */
  function TouchedOnce(l: Lists, table: Table, capacity: nat, key: Key): Lists {
    if key in l.t1 then
      if key in table && table[key].Ready() then l.(t1 := Drop(l.t1, {key}), t2 := l.t2 + [key])
      else l.(t1 := ToEnd(l.t1, key))
    else if key in l.t2 then l.(t2 := ToEnd(l.t2, key))
    else if key in l.b1 then
      l.(b1 := ToEnd(l.b1, key),
         target := RealMin(l.target + RealMax(1.0, |l.b2| as real / |l.b1| as real), capacity as real))
    else if key in l.b2 then
      l.(b2 := ToEnd(l.b2, key), target := RealMax(l.target - RealMax(1.0, |l.b1| as real / |l.b2| as real), 0.0))
    else l
  }

  /** The keys are used one after the other. */
  function TouchedAll(l: Lists, table: Table, capacity: nat, keys: seq<Key>): Lists {
    if keys == [] then l
    else TouchedOnce(TouchedAll(l, table, capacity, keys[..|keys| - 1]), table, capacity, keys[|keys| - 1])
  }

  /** What one use of `key` means for lists that do not share it: a readable
      block of T1 goes to T2, any other listed key stays where it is, and it is
      the most recent of its list. All other keys keep their order. */
  ghost predicate Used(l: Lists, r: Lists, table: Table, capacity: nat, key: Key) {
    && (key in l.t1 && key in table && table[key].refCnt >= 0 ==> key !in r.t1 && key in r.t2)
    && (key in l.t1 && key in table && table[key].refCnt < 0 ==> key in r.t1 && key !in r.t2)
    && (key in l.t2 ==> key in r.t2) && (key in l.b1 <==> key in r.b1) && (key in l.b2 <==> key in r.b2)
    && (key !in l.t1 ==> key !in r.t1) && (key !in l.t1 && key !in l.t2 ==> key !in r.t2)
    && Freshest(l.t1, r.t1, key) && Freshest(l.t2, r.t2, key) && Freshest(l.b1, r.b1, key) && Freshest(l.b2, r.b2, key)
    && Aimed(l, r.target, capacity, key)
  }

  /** `key` is last in the list, if anywhere, and the others are as before. */
  ghost predicate Freshest(before: seq<Key>, after: seq<Key>, key: Key) {
    && (key in after ==> after[|after| - 1] == key && key !in after[..|after| - 1])
    && Drop(after, {key}) == Drop(before, {key})
  }

  /** The ghost of a recent block asks for a larger T1, that of a frequent one
      for a smaller, the more the shorter its own ghost list is. */
  ghost predicate Aimed(l: Lists, target: real, capacity: nat, key: Key) {
    if key in l.b1 then target == RaisedTarget(l, capacity, 1)
    else if key in l.b2 then target == LoweredTarget(l, 1)
    else target == l.target
  }

  function RaisedTarget(l: Lists, capacity: nat, uses: nat): real
    requires l.b1 != []
  {
    var most := capacity as real;
    var aim := l.target + uses as real * if |l.b2| > |l.b1| then |l.b2| as real / |l.b1| as real else 1.0;
    if aim > most then most else aim
  }

  function LoweredTarget(l: Lists, uses: nat): real
    requires l.b2 != []
  {
    var aim := l.target - uses as real * if |l.b1| > |l.b2| then |l.b1| as real / |l.b2| as real else 1.0;
    if aim < 0.0 then 0.0 else aim
  }

  /** What the uses of `used`, one after the other, mean: the readable blocks of
      T1 are now in T2, and in each list its used keys are last, in the order of
      their last use, behind the others in their old order. */
  ghost predicate UsedInTurn(l: Lists, r: Lists, table: Table, capacity: nat, used: seq<Key>) {
    var ready := set k | k in table && table[k].refCnt >= 0;
    && r.t1 == MovedUp(l.t1, Elements(l.t1) - ready, used)
    && r.t2 == MovedUp(l.t2, Elements(l.t2) + Elements(l.t1) * ready, used)
    && r.b1 == MovedUp(l.b1, Elements(l.b1), used) && r.b2 == MovedUp(l.b2, Elements(l.b2), used)
    && AimedInTurn(l, r.target, capacity, |Keep(used, Elements(l.b1))|, |Keep(used, Elements(l.b2))|)
  }

  /** The target after ghosts of one kind were used: it moves by a fixed amount
      for each use. */
  ghost predicate AimedInTurn(l: Lists, target: real, capacity: nat, recent: nat, frequent: nat) {
    && (recent == 0 && frequent == 0 ==> target == l.target)
    && (recent > 0 && frequent == 0 ==> l.b1 != [] && target == RaisedTarget(l, capacity, recent))
    && (recent == 0 && frequent > 0 ==> l.b2 != [] && target == LoweredTarget(l, frequent))
    && 0.0 <= target <= capacity as real
  }

  class ArcCachePolicy {
    const capacity: nat
    var blocks: Table
    var t1: seq<Key>
    var t2: seq<Key>
    var b1: seq<Key>
    var b2: seq<Key>
    var target: real

    /** The four lists never share a key, the ghosts stay bounded and the
        target stays within the capacity. */
    ghost predicate Valid()
      reads this
    {
      && FourLists(t1, t2, b1, b2)
      && Elements(t1) + Elements(t2) == blocks.Keys
      && |b1| <= capacity && |b2| <= capacity
      && 0.0 <= target <= capacity as real
    }

    ghost function Value(): Lists
      reads this
    {
      Lists(t1, t2, b1, b2, target)
    }

    constructor (capacity: nat)
      ensures Valid() && this.capacity == capacity && blocks == map[]
      ensures t1 == t2 == b1 == b2 == [] && target == 0.0
    {
      this.capacity := capacity;
      blocks, t1, t2, b1, b2, target := map[], [], [], [], [], 0.0;
    }

    method Get(key: Key) returns (r: Option<Block>)
      ensures r == if key in blocks then Some(blocks[key]) else None
    {
      r := if key in blocks then Some(blocks[key]) else None;
    }

    method Insert(key: Key, block: Block)
      requires Valid() && key !in blocks
      modifies this
      ensures Valid()
      ensures blocks == old(blocks)[key := block] && t1 == old(t1) + [key]
      ensures t2 == old(t2) && b1 == Drop(old(b1), {key}) && b2 == Drop(old(b2), {key})
      ensures target == old(target)
    {
      hide Drop, Distinct, FourLists, Elements;
      InsertKeepsLists(t1, t2, b1, b2, key);
      blocks, t1 := blocks[key := block], t1 + [key];
      b1, b2 := Drop(b1, {key}), Drop(b2, {key});
    }

    method Remove(key: Key)
      requires Valid() && key in blocks
      modifies this
      ensures Valid()
      ensures blocks == old(blocks) - {key}
      ensures t1 == Drop(old(t1), {key}) && t2 == Drop(old(t2), {key})
      ensures b1 == old(b1) && b2 == old(b2) && target == old(target)
    {
      MoveToEnd(t1, key);
      MoveToEnd(t2, key);
      assert key in Elements(t1) + Elements(t2);
      if key in t1 {
        assert key in Elements(t1);
        DropNothing(t2, {key});
        t1 := Drop(t1, {key});
      } else {
        DropNothing(t1, {key});
        t2 := Drop(t2, {key});
      }
      blocks := blocks - {key};
    }

    /** The manager writes the reference count of a block it holds. */
    method SetRefCnt(key: Key, refCnt: int)
      requires Valid() && key in blocks
      modifies this`blocks
      ensures Valid()
      ensures blocks == old(blocks)[key := old(blocks)[key].(refCnt := refCnt)]
    {
      blocks := blocks[key := blocks[key].(refCnt := refCnt)];
    }

    /** Uses the keys, the last one first; the blocks themselves do not change. */
    method Touch(keys: seq<Key>)
      requires Valid()
      modifies this`t1, this`t2, this`b1, this`b2, this`target
      ensures Valid() && Value() == TouchedAll(old(Value()), blocks, capacity, Reverse(keys))
      ensures UsedInTurn(old(Value()), Value(), blocks, capacity, Reverse(keys))
    {
      hide TouchedOnce, UsedInTurn, Used;
      var reversed := Reverse(keys);
      var i := 0;
      while i < |reversed|
        invariant 0 <= i <= |reversed| && Valid()
        invariant Value() == TouchedAll(old(Value()), blocks, capacity, reversed[..i])
      {
        assert reversed[..i + 1][..i] == reversed[..i];
        TouchOne(reversed[i]);
        i := i + 1;
      }
      assert reversed[..i] == reversed;
      UsesInTurn(old(Value()), blocks, capacity, reversed);
    }

    method TouchOne(key: Key)
      requires Valid()
      modifies this`t1, this`t2, this`b1, this`b2, this`target
      ensures Valid() && Value() == TouchedOnce(old(Value()), blocks, capacity, key)
      ensures Used(old(Value()), Value(), blocks, capacity, key)
    {
      hide Drop, Distinct, Elements, FourLists, RealMax, RealMin, Used;
      TouchedOnceKeepsLists(Value(), blocks, capacity, key);
      UseIs(Value(), blocks, capacity, key);
      if key in t1 {
        if !blocks[key].Ready() {
          t1 := ToEnd(t1, key);
        } else {
          t1, t2 := Drop(t1, {key}), t2 + [key];
        }
      } else if key in t2 {
        t2 := ToEnd(t2, key);
      } else if key in b1 {
        var delta := RealMax(1.0, |b2| as real / |b1| as real);
        target := RealMin(target + delta, capacity as real);
        b1 := ToEnd(b1, key);
      } else if key in b2 {
        var delta := RealMax(1.0, |b1| as real / |b2| as real);
        target := RealMax(target - delta, 0.0);
        b2 := ToEnd(b2, key);
      }
    }

    method Clear()
      modifies this
      ensures Valid() && blocks == map[] && t1 == t2 == b1 == b2 == [] && target == 0.0
    {
      blocks, t1, t2, b1, b2, target := map[], [], [], [], [], 0.0;
    }

    /** An eviction of `n` blocks outside `protect` finds too few. */
    ghost predicate Fails(n: nat, protect: set<Key>)
      reads this
    {
      RestartScan(t1, t2, IdleKeys(blocks) - protect, |t1|, target.Floor, n).None?
    }

    /** One pass over T1 and one over T2. Takes exactly the victims of the scan
        that restarts for each of them, or changes nothing. */
    method Evict(n: nat, protect: set<Key>) returns (r: Option<seq<Victim>>)
      requires Valid()
      modifies this
      ensures Valid()
      ensures n == 0 ==> r == Some([]) && unchanged(this)
      ensures r.None? ==> unchanged(this)
      ensures r.None? <==> n > 0 && old(Fails(n, protect))
      ensures r.Some? && n > 0 ==>
        var picks := RestartScan(old(t1), old(t2), old(IdleKeys(blocks)) - protect, |old(t1)|, old(target).Floor,
            n).value;
        && (forall k :: k in picks.Order() ==> k in IdleKeys(old(blocks)) && k !in protect)
        && Distinct(picks.Order()) && |picks.Order()| == n
        && picks.recent <= Keep(old(t1), old(IdleKeys(blocks)) - protect)
        && picks.frequent <= Keep(old(t2), old(IdleKeys(blocks)) - protect)
        && r.value == VictimsOf(picks.Order(), old(blocks))
        && blocks == old(blocks) - Elements(picks.Order())
        && t1 == Drop(old(t1), Elements(picks.recent)) && t2 == Drop(old(t2), Elements(picks.frequent))
        && b1 == Trimmed(old(b1) + picks.recent, capacity) && b2 == Trimmed(old(b2) + picks.frequent, capacity)
        && target == old(target)
    {
      if n == 0 {
        return Some([]);
      }
      ghost var eligible := IdleKeys(blocks) - protect;
      var found := Select(n, protect);
      RestartScanIs(t1, t2, eligible, |t1|, target.Floor, n);
      if found.None? {
        return None;
      }
      r := TakeOut(found.value, eligible);
    }

    /** Takes the chosen victims out and remembers them as ghosts. */
    method TakeOut(picks: Picks, ghost eligible: set<Key>) returns (r: Option<seq<Victim>>)
      requires Valid() && eligible <= IdleKeys(blocks)
      requires picks.recent <= Keep(t1, eligible) && picks.frequent <= Keep(t2, eligible)
      modifies this`blocks, this`t1, this`t2, this`b1, this`b2
      ensures Valid()
      ensures (forall k :: k in picks.Order() ==> k in eligible) && Distinct(picks.Order())
      ensures forall k :: k in picks.Order() ==> k in old(blocks)
      ensures r == Some(VictimsOf(picks.Order(), old(blocks)))
      ensures blocks == old(blocks) - Elements(picks.Order())
      ensures t1 == Drop(old(t1), Elements(picks.recent)) && t2 == Drop(old(t2), Elements(picks.frequent))
      ensures b1 == Trimmed(old(b1) + picks.recent, capacity) && b2 == Trimmed(old(b2) + picks.frequent, capacity)
    {
      hide Drop, Keep, Distinct, Elements, Trimmed, FourLists, KeysAt;
      var recent, frequent := picks.recent, picks.frequent;
      TakenOutLists(t1, t2, b1, b2, picks, eligible, capacity);
      HeldBy(blocks, t1, t2);
      r := Some(VictimsOf(recent + frequent, blocks));
      blocks := blocks - Elements(recent + frequent);
      t1, t2 := Drop(t1, Elements(recent)), Drop(t2, Elements(frequent));
      b1, b2 := Trimmed(b1 + recent, capacity), Trimmed(b2 + frequent, capacity);
    }

    /** The candidates, collected with one monotonic scan of each list. */
    method Select(n: nat, protect: set<Key>) returns (r: Option<Picks>)
      requires Valid() && n > 0
      ensures r == ClosedForm(Keep(t1, IdleKeys(blocks) - protect), Keep(t2, IdleKeys(blocks) - protect),
                              |t1|, target.Floor, n)
    {
      hide Keep, KeysAt, Distinct, FourLists;
      ghost var eligible := IdleKeys(blocks) - protect;
      ghost var e1, e2 := Keep(t1, eligible), Keep(t2, eligible);
      NothingScanned(t1, eligible);
      NothingScanned(t2, eligible);
      forall k | k in t1 || k in t2 ensures k in blocks { assert k in Elements(t1) + Elements(t2); }
      var recent: seq<Key>, frequent: seq<Key> := [], [];
      var i1, i2, count := 0, 0, 0;
      var virtualT1 := |t1|;
      while count < n
        invariant 0 <= count == |recent| + |frequent| <= n
        invariant 0 <= i1 <= |t1| && 0 <= i2 <= |t2|
        invariant virtualT1 == |t1| - |recent|
        invariant Scanned(t1, i1, eligible, recent) && Scanned(t2, i2, eligible, frequent)
        invariant |recent| <= FromT1(|e1|, |t1|, target.Floor)
        invariant frequent != [] ==> |recent| == FromT1(|e1|, |t1|, target.Floor)
      {
        var candidate: Option<Key> := None;
        if virtualT1 >= target.Floor {
          candidate, i1 := NextCandidate(t1, i1, protect, eligible, recent);
          if candidate.Some? {
            recent := recent + [candidate.value];
            virtualT1 := virtualT1 - 1;
          }
        }
        if candidate.None? {
          candidate, i2 := NextCandidate(t2, i2, protect, eligible, frequent);
          if candidate.None? {
            assert n - Min(n, FromT1(|e1|, |t1|, target.Floor)) > |e2|;
            return None;
          }
          frequent := frequent + [candidate.value];
        }
        count := count + 1;
      }
      PicksClosed(e1, e2, |t1|, target.Floor, n, recent, frequent);
      r := Some(Picks(recent, frequent));
    }

    /** Advances one iterator to the next idle, unprotected key. */
    method NextCandidate(list: seq<Key>, start: nat, protect: set<Key>, ghost eligible: set<Key>, ghost sofar: seq<Key>)
      returns (r: Option<Key>, i: nat)
      requires start <= |list| && forall k :: k in list ==> k in blocks
      requires eligible == IdleKeys(blocks) - protect
      requires Scanned(list, start, eligible, sofar)
      ensures start <= i <= |list|
      ensures Scanned(list, i, eligible, if r.Some? then sofar + [r.value] else sofar)
      ensures r.None? ==> sofar == Keep(list, eligible)
    {
      r, i := None, start;
      while i < |list|
        invariant start <= i <= |list|
        invariant Scanned(list, i, eligible, sofar)
      {
        var key := list[i];
        ScanStep(list, i, eligible, sofar);
        i := i + 1;
        assert key in eligible <==> blocks[key].refCnt == 0 && key !in protect;
        if blocks[key].refCnt == 0 && key !in protect {
          return Some(key), i;
        }
      }
      assert list[..i] == list;
    }
  }

  /** An iterator at `i` has yielded exactly `sofar`. */
  ghost predicate Scanned(list: seq<Key>, i: nat, eligible: set<Key>, sofar: seq<Key>) {
    i <= |list| && sofar == Keep(list[..i], eligible) && sofar <= Keep(list, eligible)
  }

  lemma NothingScanned(list: seq<Key>, eligible: set<Key>)
    ensures Scanned(list, 0, eligible, [])
  {}

  lemma ScanStep(list: seq<Key>, i: nat, eligible: set<Key>, sofar: seq<Key>)
    requires i < |list| && Scanned(list, i, eligible, sofar)
    ensures Scanned(list, i + 1, eligible, if list[i] in eligible then sofar + [list[i]] else sofar)
  {
    KeepStep(list, i, eligible);
    KeepPrefix(list, i + 1, eligible);
  }

  /** The chosen victims, split by the list they come from. The recent ones are
      always chosen first. */
  datatype Picks = Picks(recent: seq<Key>, frequent: seq<Key>) {
    function Order(): seq<Key> { recent + frequent }
  }

  lemma PicksAreIdle(picks: Picks, eligible: set<Key>, keys1: set<Key>, keys2: set<Key>)
    requires Distinct(picks.recent) && Distinct(picks.frequent)
    requires Elements(picks.recent) <= keys1 * eligible && Elements(picks.frequent) <= keys2 * eligible
    requires keys1 !! keys2
    ensures Distinct(picks.Order())
    ensures Elements(picks.Order()) == Elements(picks.recent) + Elements(picks.frequent)
    ensures forall k :: k in picks.Order() ==> k in eligible && k in keys1 + keys2
  {
    var a, b := picks.recent, picks.frequent;
    forall k | k in a ensures k in keys1 && k in eligible { assert k in Elements(a); }
    forall k | k in b ensures k in keys2 && k in eligible { assert k in Elements(b); }
    JoinDistinct(a, b);
  }

  /** How many victims T1 can give before its size falls below the target. */
  function FromT1(eligible: nat, size: int, goal: int): nat {
    Min(eligible, Max(0, size - goal + 1))
  }

  /** What a batch eviction takes, as a formula. */
  function ClosedForm(e1: seq<Key>, e2: seq<Key>, size: int, goal: int, n: nat): Option<Picks> {
    var a := Min(n, FromT1(|e1|, size, goal));
    if n - a > |e2| then None else Some(Picks(e1[..a], e2[..n - a]))
  }

  function FirstIn(list: seq<Key>, allowed: set<Key>): Option<Key> {
    if list == [] then None
    else if list[0] in allowed then Some(list[0])
    else FirstIn(list[1..], allowed)
  }

  /** The textbook eviction: for every victim restart both scans from the least
      recent end, over the keys not chosen yet. */
  function RestartScan(t1: seq<Key>, t2: seq<Key>, eligible: set<Key>, size: int, goal: int, n: nat)
    : (r: Option<Picks>)
    decreases n
  {
    if n == 0 then Some(Picks([], []))
    else
      var first := if size >= goal then FirstIn(t1, eligible) else None;
      if first.Some? then
        AddRecent(first.value, RestartScan(t1, t2, eligible - {first.value}, size - 1, goal, n - 1))
      else
        var second := FirstIn(t2, eligible);
        if second.None? then None
        else AddFrequent(second.value, RestartScan(t1, t2, eligible - {second.value}, size, goal, n - 1))
  }

  function AddRecent(key: Key, rest: Option<Picks>): Option<Picks> {
    if rest.None? then None else Some(Picks([key] + rest.value.recent, rest.value.frequent))
  }

  function AddFrequent(key: Key, rest: Option<Picks>): Option<Picks> {
    if rest.None? then None else Some(Picks(rest.value.recent, [key] + rest.value.frequent))
  }

  lemma {:induction false} FirstInKeep(list: seq<Key>, allowed: set<Key>)
    ensures FirstIn(list, allowed) ==
            if Keep(list, allowed) == [] then None else Some(Keep(list, allowed)[0])
  {
    if list != [] {
      assert list == [list[0]] + list[1..];
      KeepAppend([list[0]], list[1..], allowed);
      assert Keep([list[0]], allowed) == if list[0] in allowed then [list[0]] else [];
      FirstInKeep(list[1..], allowed);
    }
  }

  /** Taking the first kept element away. */
  lemma KeepRest(list: seq<Key>, other: seq<Key>, eligible: set<Key>)
    requires Distinct(list) && Elements(list) !! Elements(other) && Keep(list, eligible) != []
    ensures var first := Keep(list, eligible)[0];
            && Keep(list, eligible - {first}) == Keep(list, eligible)[1..]
            && Keep(other, eligible - {first}) == Keep(other, eligible)
  {
    var kept := Keep(list, eligible);
    assert kept[0] in kept && kept[0] in Elements(list) && kept[0] !in Elements(other);
    KeepWithoutPrefix(list, eligible, 1);
    assert Elements(kept[..1]) == {kept[0]};
    KeepSame(other, eligible - {kept[0]}, eligible);
  }

  lemma PicksClosed(e1: seq<Key>, e2: seq<Key>, size: int, goal: int, n: nat, recent: seq<Key>, frequent: seq<Key>)
    requires recent <= e1 && frequent <= e2 && |recent| + |frequent| == n
    requires |recent| <= FromT1(|e1|, size, goal)
    requires frequent != [] ==> |recent| == FromT1(|e1|, size, goal)
    ensures ClosedForm(e1, e2, size, goal, n) == Some(Picks(recent, frequent))
  {
    assert Min(n, FromT1(|e1|, size, goal)) == |recent|;
    assert e1[..|recent|] == recent && e2[..|frequent|] == frequent;
  }

  lemma ClosedRecent(e1: seq<Key>, e2: seq<Key>, size: int, goal: int, n: nat)
    requires size >= goal && e1 != [] && n > 0
    ensures ClosedForm(e1, e2, size, goal, n) == AddRecent(e1[0], ClosedForm(e1[1..], e2, size - 1, goal, n - 1))
  {
    var a := Min(n, FromT1(|e1|, size, goal));
    assert e1[1..][..a - 1] == e1[1..a];
    assert [e1[0]] + e1[1..a] == e1[..a];
  }

  lemma ClosedFrequent(e1: seq<Key>, e2: seq<Key>, size: int, goal: int, n: nat)
    requires FromT1(|e1|, size, goal) == 0 && e2 != [] && n > 0
    ensures ClosedForm(e1, e2, size, goal, n) == AddFrequent(e2[0], ClosedForm(e1, e2[1..], size, goal, n - 1))
  {
    assert n <= |e2| ==> [e2[0]] + e2[1..][..n - 1] == e2[..n];
  }

  /** The restarting scan has the closed form. */
  lemma {:induction false} RestartScanIs(t1: seq<Key>, t2: seq<Key>, eligible: set<Key>, size: int, goal: int, n: nat)
    requires Distinct(t1) && Distinct(t2) && Elements(t1) !! Elements(t2)
    ensures RestartScan(t1, t2, eligible, size, goal, n) ==
            ClosedForm(Keep(t1, eligible), Keep(t2, eligible), size, goal, n)
    decreases n
  {
    hide Keep, Distinct, Elements, FirstIn;
    var e1, e2 := Keep(t1, eligible), Keep(t2, eligible);
    assert e1[..0] == [] && e2[..0] == [];
    if n > 0 {
      FirstInKeep(t1, eligible);
      FirstInKeep(t2, eligible);
      if size >= goal && e1 != [] {
        KeepRest(t1, t2, eligible);
        RestartScanIs(t1, t2, eligible - {e1[0]}, size - 1, goal, n - 1);
        ClosedRecent(e1, e2, size, goal, n);
      } else if e2 != [] {
        KeepRest(t2, t1, eligible);
        RestartScanIs(t1, t2, eligible - {e2[0]}, size, goal, n - 1);
        ClosedFrequent(e1, e2, size, goal, n);
      }
    }
  }

  /** The scan fails exactly when too few keys are eligible, or when those of T1
      below the target would be needed. */
  lemma ScanFailsIff(t1: seq<Key>, t2: seq<Key>, eligible: set<Key>, goal: int, n: nat)
    requires Distinct(t1) && Distinct(t2) && Elements(t1) !! Elements(t2)
    requires eligible <= Elements(t1) + Elements(t2)
    ensures RestartScan(t1, t2, eligible, |t1|, goal, n).None?
            <==> n > |eligible| || n > Max(0, |t1| - goal + 1) + |eligible * Elements(t2)|
  {
    hide Keep, RestartScan, Distinct, Elements;
    RestartScanIs(t1, t2, eligible, |t1|, goal, n);
    KeptSize(t1, eligible);
    KeptSize(t2, eligible);
    assert eligible == eligible * Elements(t1) + eligible * Elements(t2);
  }

  lemma KeptSize(list: seq<Key>, keep: set<Key>)
    requires Distinct(list)
    ensures |Keep(list, keep)| == |keep * Elements(list)|
  {
    KeepDistinct(list, keep);
    DistinctLength(Keep(list, keep));
    assert Elements(Keep(list, keep)) == keep * Elements(list);
  }

  /** `evict` is promised to fail only when `n` evictions cannot be satisfied.
      It breaks that promise exactly when T1 blocks below the target are needed. */
  lemma FailsThoughEnoughIdle(arc: ArcCachePolicy, n: nat, protect: set<Key>)
    requires arc.Valid()
    ensures var idle := IdleKeys(arc.blocks) - protect;
            (arc.Fails(n, protect) && n <= |idle|)
            <==> Max(0, |arc.t1| - arc.target.Floor + 1) + |idle * Elements(arc.t2)| < n <= |idle|
    ensures n > |IdleKeys(arc.blocks) - protect| ==> arc.Fails(n, protect)
  {
    hide Distinct, Elements;
    ScanFailsIff(arc.t1, arc.t2, IdleKeys(arc.blocks) - protect, arc.target.Floor, n);
  }

  /** From an empty policy: three blocks are evicted and their ghosts used again,
      so the target is 3. Of the four idle blocks that follow two can be evicted,
      but not three. */
  method RefusalExample() returns (arc: ArcCachePolicy, three: Option<seq<Victim>>, two: Option<seq<Victim>>)
    ensures three.None? && two.Some? && VictimKeys(two.value) == [1, 2]
  {
    hide Drop, Keep, RestartScan, Trimmed, KeysAt, ArcCachePolicy.Valid, ArcCachePolicy.Fails;
    arc := new ArcCachePolicy(4);
    InsertIdle(arc, [5, 6, 7]);
    EvictRecent(arc);
    UseGhosts(arc);
    NotGhosts(arc.b1);
    InsertIdle(arc, [1, 2, 3, 4]);
    three := RefuseThree(arc);
    two := TakeTwo(arc);
  }

  lemma NotGhosts(ghosts: seq<Key>)
    requires Elements(ghosts) == {5, 6, 7}
    ensures forall k :: k in [1, 2, 3, 4] ==> k !in ghosts
  {
    assert forall k :: k in ghosts <==> k in Elements(ghosts);
  }

  method RefuseThree(arc: ArcCachePolicy) returns (r: Option<seq<Victim>>)
    requires arc.Valid() && arc.t1 == [1, 2, 3, 4] && arc.t2 == [] && arc.target == 3.0
    requires IdleKeys(arc.blocks) == {1, 2, 3, 4}
    modifies arc
    ensures r.None? && unchanged(arc)
  {
    hide Drop, Keep, RestartScan, Trimmed, KeysAt, ArcCachePolicy.Valid;
    AllOf([1, 2, 3, 4]);
    RecentOnly(arc, [1, 2, 3, 4], 3);
    r := arc.Evict(3, {});
  }

  method TakeTwo(arc: ArcCachePolicy) returns (r: Option<seq<Victim>>)
    requires arc.Valid() && arc.t1 == [1, 2, 3, 4] && arc.t2 == [] && arc.target == 3.0
    requires IdleKeys(arc.blocks) == {1, 2, 3, 4}
    modifies arc
    ensures r.Some? && VictimKeys(r.value) == [1, 2]
  {
    hide Drop, Keep, RestartScan, Trimmed, KeysAt, ArcCachePolicy.Valid;
    AllOf([1, 2, 3, 4]);
    RecentOnly(arc, [1, 2, 3, 4], 2);
    r := arc.Evict(2, {});
    assert [1, 2] + [] == [1, 2];
  }

  lemma AllOf(list: seq<Key>)
    ensures list == [1, 2, 3, 4] ==> Elements(list) == {1, 2, 3, 4} && list[..2] == [1, 2]
    ensures list == [5, 6, 7] ==> Elements(list) == {5, 6, 7} && list[..3] == list
  {}

  /** New blocks whose writes are over, in a policy that holds none. */
  method InsertIdle(arc: ArcCachePolicy, keys: seq<Key>)
    requires arc.Valid() && arc.blocks == map[] && Distinct(keys)
    requires forall k :: k in keys ==> k !in arc.b1 && k !in arc.b2
    modifies arc
    ensures arc.Valid() && arc.t1 == keys && arc.t2 == [] && arc.b1 == old(arc.b1) && arc.b2 == old(arc.b2)
    ensures arc.target == old(arc.target) && IdleKeys(arc.blocks) == arc.blocks.Keys == Elements(keys)
  {
    hide Drop, Distinct;
    NoneHeld(arc.blocks, arc.t1, arc.t2);
    for i := 0 to |keys|
      invariant arc.Valid() && arc.t1 == keys[..i] && arc.t2 == [] && arc.b1 == old(arc.b1) && arc.b2 == old(arc.b2)
      invariant arc.target == old(arc.target) && IdleKeys(arc.blocks) == arc.blocks.Keys == Elements(keys[..i])
    {
      NewKey(keys, i);
      DropNothing(arc.b1, {keys[i]});
      DropNothing(arc.b2, {keys[i]});
      arc.Insert(keys[i], Block(-1, i));
      arc.SetRefCnt(keys[i], 0);
      assert keys[..i + 1] == keys[..i] + [keys[i]];
    }
    assert keys[..|keys|] == keys;
  }

  lemma NoneHeld(table: Table, t1: seq<Key>, t2: seq<Key>)
    requires table == map[] && Elements(t1) + Elements(t2) == table.Keys
    ensures t1 == [] && t2 == []
  {
    NoElements(t1);
    NoElements(t2);
  }

  lemma NoElements(list: seq<Key>)
    ensures Elements(list) == {} ==> list == []
  {
    assert list != [] ==> list[0] in Elements(list);
  }

  lemma NewKey(keys: seq<Key>, i: nat)
    requires Distinct(keys) && i < |keys|
    ensures keys[i] !in Elements(keys[..i])
  {}

  /** With a target of 0 all three go, oldest first. */
  method EvictRecent(arc: ArcCachePolicy)
    requires arc.Valid() && arc.capacity == 4 && arc.t1 == [5, 6, 7] && arc.t2 == arc.b1 == arc.b2 == []
    requires arc.target == 0.0 && IdleKeys(arc.blocks) == arc.blocks.Keys == {5, 6, 7}
    modifies arc
    ensures arc.Valid() && arc.blocks == map[] && arc.b1 == [5, 6, 7] && arc.b2 == [] && arc.target == 0.0
  {
    hide Drop, Keep, RestartScan, Trimmed, KeysAt, Elements, ArcCachePolicy.Valid;
    var all: seq<Key> := [5, 6, 7];
    AllOf(all);
    RecentOnly(arc, all, 3);
    AllGone(arc.blocks, all);
    var gone := arc.Evict(3, {});
  }

  lemma AllGone(table: Table, list: seq<Key>)
    requires table.Keys == Elements(list) && |list| == 3
    ensures table - Elements(list + []) == map[]
    ensures Trimmed([] + list, 4) == list && Trimmed([] + [], 4) == []
  {
    assert list + [] == list && [] + list == list;
  }

  /** Each ghost that is used again moves the target by one. */
  method UseGhosts(arc: ArcCachePolicy)
    requires arc.Valid() && arc.capacity == 4 && arc.blocks == map[] && arc.b1 == [5, 6, 7] && arc.b2 == []
    requires arc.target == 0.0
    modifies arc`t1, arc`t2, arc`b1, arc`b2, arc`target
    ensures arc.Valid() && arc.target == 3.0 && arc.b2 == [] && Elements(arc.b1) == {5, 6, 7}
  {
    hide Drop;
    NoneHeld(arc.blocks, arc.t1, arc.t2);
    for i := 5 to 8
      invariant arc.Valid() && arc.t1 == arc.t2 == arc.b2 == [] && |arc.b1| == 3 && Elements(arc.b1) == {5, 6, 7}
      invariant arc.target == (i - 5) as real
    {
      assert i in Elements(arc.b1);
      GhostsMoved(arc.b1, i);
      arc.TouchOne(i);
    }
  }

  lemma GhostsMoved(ghosts: seq<Key>, key: Key)
    requires key in ghosts && Distinct(ghosts)
    ensures |ToEnd(ghosts, key)| == |ghosts| && Elements(ToEnd(ghosts, key)) == Elements(ghosts)
  {
    MoveToEnd(ghosts, key);
  }

  /** Which blocks are evicted when all are in T1. */
  lemma RecentOnly(arc: ArcCachePolicy, list: seq<Key>, n: nat)
    requires arc.Valid() && arc.t1 == list && arc.t2 == [] && IdleKeys(arc.blocks) == Elements(list)
    ensures RestartScan(list, [], IdleKeys(arc.blocks) - {}, |list|, arc.target.Floor, n)
            == ClosedForm(list, [], |list|, arc.target.Floor, n)
  {
    KeepAll(list, Elements(list));
    RestartScanIs(list, [], Elements(list), |list|, arc.target.Floor, n);
    assert IdleKeys(arc.blocks) - {} == Elements(list);
  }

  /** A block that was used again outlasts newer ones that were not: of 1, used
      once more, 2 and 3 it is 2 that goes. */
  method UsedBlockStays() returns (arc: ArcCachePolicy, r: Option<seq<Victim>>)
    ensures r.Some? && VictimKeys(r.value) == [2] && arc.blocks.Keys == {1, 3}
  {
    hide Drop, Keep, RestartScan, Trimmed, KeysAt, ArcCachePolicy.Valid, Used, TouchedOnce, VictimsOf, VictimKeys;
    arc := new ArcCachePolicy(4);
    InsertReady(arc, 1);
    assert [] + [1] == [1];
    UseRecent(arc, 1);
    InsertReady(arc, 2);
    InsertReady(arc, 3);
    assert [] + [2] + [3] == [2, 3];
    r := TakeOldest(arc);
  }

  method TakeOldest(arc: ArcCachePolicy) returns (r: Option<seq<Victim>>)
    requires arc.Valid() && arc.t1 == [2, 3] && arc.t2 == [1] && arc.target == 0.0
    requires IdleKeys(arc.blocks) == arc.blocks.Keys == {1, 2, 3}
    modifies arc
    ensures r.Some? && VictimKeys(r.value) == [2] && arc.blocks.Keys == {1, 3}
  {
    hide Drop, Keep, RestartScan, Trimmed, KeysAt, ArcCachePolicy.Valid, Used, TouchedOnce;
    FirstOfTwo(arc);
    r := arc.Evict(1, {});
    assert [2] + [] == [2];
  }

  method InsertReady(arc: ArcCachePolicy, key: Key)
    requires arc.Valid() && key !in arc.blocks
    modifies arc
    ensures arc.Valid() && arc.t1 == old(arc.t1) + [key] && arc.t2 == old(arc.t2) && arc.target == old(arc.target)
    ensures arc.blocks.Keys == old(arc.blocks).Keys + {key}
    ensures IdleKeys(arc.blocks) == IdleKeys(old(arc.blocks)) + {key}
  {
    hide ArcCachePolicy.Valid;
    arc.Insert(key, Block(-1, key));
    arc.SetRefCnt(key, 0);
  }

  method UseRecent(arc: ArcCachePolicy, key: Key)
    requires arc.Valid() && arc.t1 == [key] && arc.t2 == [] && key in IdleKeys(arc.blocks)
    modifies arc`t1, arc`t2, arc`b1, arc`b2, arc`target
    ensures arc.Valid() && arc.t1 == [] && arc.t2 == [key] && arc.target == old(arc.target)
  {
    hide Drop;
    NoElements(Drop([key], {key}));
    arc.TouchOne(key);
  }

  lemma FirstOfTwo(arc: ArcCachePolicy)
    requires arc.Valid() && arc.t1 == [2, 3] && arc.t2 == [1] && arc.target == 0.0 && IdleKeys(arc.blocks) == {1, 2, 3}
    ensures RestartScan([2, 3], [1], IdleKeys(arc.blocks) - {}, 2, 0, 1) == Some(Picks([2], []))
  {
    RestartScanIs([2, 3], [1], {1, 2, 3}, 2, 0, 1);
    KeepAll([2, 3], {1, 2, 3});
    KeepAll([1], {1, 2, 3});
    assert IdleKeys(arc.blocks) - {} == {1, 2, 3};
    assert [2, 3][..1] == [2] && [1][..0] == [];
  }

  // ---- the four lists stay pairwise disjoint ----

  ghost predicate FourLists(t1: seq<Key>, t2: seq<Key>, b1: seq<Key>, b2: seq<Key>) {
    && Distinct(t1) && Distinct(t2) && Distinct(b1) && Distinct(b2)
    && Elements(t1) !! Elements(t2) !! Elements(b1) !! Elements(b2)
  }

  /** Every list is used as `TouchedOnce` says without sharing a key. */
  lemma TouchedOnceKeepsLists(l: Lists, table: Table, capacity: nat, key: Key)
    requires FourLists(l.t1, l.t2, l.b1, l.b2) && Elements(l.t1) + Elements(l.t2) == table.Keys
    requires |l.b1| <= capacity && |l.b2| <= capacity && 0.0 <= l.target <= capacity as real
    ensures key in l.t1 ==> key in table
    ensures var r := TouchedOnce(l, table, capacity, key);
            && FourLists(r.t1, r.t2, r.b1, r.b2) && Elements(r.t1) + Elements(r.t2) == table.Keys
            && |r.b1| <= capacity && |r.b2| <= capacity && 0.0 <= r.target <= capacity as real
  {
    hide Drop, Distinct;
    assert forall list :: key in list <==> key in Elements<Key>(list);
    if key in l.t1 {
      MoveToEnd(l.t1, key);
      AppendDistinct(l.t2, key);
    } else if key in l.t2 {
      MoveToEnd(l.t2, key);
    } else if key in l.b1 {
      MoveToEnd(l.b1, key);
    } else if key in l.b2 {
      MoveToEnd(l.b2, key);
    }
  }

  lemma UseIs(l: Lists, table: Table, capacity: nat, key: Key)
    requires FourLists(l.t1, l.t2, l.b1, l.b2) && Elements(l.t1) + Elements(l.t2) == table.Keys
    ensures Used(l, TouchedOnce(l, table, capacity, key), table, capacity, key)
  {
    hide Drop, Distinct, FourLists, Freshest, ToEnd, Elements, Aimed;
    InOneList(l, table, key);
    AtEnd(l.t1, key);
    AtEnd(l.t2, key);
    AtEnd(l.b1, key);
    AtEnd(l.b2, key);
    TargetIs(l, table, capacity, key);
  }

  lemma {:induction false} UsesInTurn(l: Lists, table: Table, capacity: nat, used: seq<Key>)
    requires FourLists(l.t1, l.t2, l.b1, l.b2) && Elements(l.t1) + Elements(l.t2) == table.Keys
    requires |l.b1| <= capacity && |l.b2| <= capacity && 0.0 <= l.target <= capacity as real
    ensures UsedInTurn(l, TouchedAll(l, table, capacity, used), table, capacity, used)
  {
    hide UsedInTurn, FourLists, TouchedOnce;
    if used == [] {
      NoneUsed(l, table, capacity);
    } else {
      var front, key := used[..|used| - 1], used[|used| - 1];
      UsesInTurn(l, table, capacity, front);
      assert used == front + [key];
      UsedOneMore(l, TouchedAll(l, table, capacity, front), table, capacity, front, key);
    }
  }

  lemma NoneUsed(l: Lists, table: Table, capacity: nat)
    requires 0.0 <= l.target <= capacity as real
    ensures UsedInTurn(l, l, table, capacity, [])
  {
    forall list, members ensures MovedUp<Key>(list, members, []) == list { NoneMovedUp<Key>(list, members); }
  }

  lemma UsedOneMore(l: Lists, m: Lists, table: Table, capacity: nat, used: seq<Key>, key: Key)
    requires FourLists(l.t1, l.t2, l.b1, l.b2) && Elements(l.t1) + Elements(l.t2) == table.Keys
    requires |l.b1| <= capacity && |l.b2| <= capacity && 0.0 <= l.target <= capacity as real
    requires UsedInTurn(l, m, table, capacity, used)
    ensures UsedInTurn(l, TouchedOnce(m, table, capacity, key), table, capacity, used + [key])
  {
    hide FourLists, Drop, Keep, LastUses, MovedUp, AimedInTurn, Elements;
    var ready := set k | k in table && table[k].refCnt >= 0;
    InOneList(l, table, key);
    IsElement(key);
    MovedOnce(l.t1, Elements(l.t1) - ready, used, key);
    MovedOnce(l.t2, Elements(l.t2) + Elements(l.t1) * ready, used, key);
    MovedOnce(l.b1, Elements(l.b1), used, key);
    MovedOnce(l.b2, Elements(l.b2), used, key);
    AimedOneMore(l, m, table, capacity, used, key);
  }

  lemma AimedOneMore(l: Lists, m: Lists, table: Table, capacity: nat, used: seq<Key>, key: Key)
    requires FourLists(l.t1, l.t2, l.b1, l.b2) && 0.0 <= l.target <= capacity as real
    requires key in l.b1 || key in l.b2 ==> key !in m.t1 && key !in m.t2
    requires m.b1 == MovedUp(l.b1, Elements(l.b1), used) && m.b2 == MovedUp(l.b2, Elements(l.b2), used)
    requires AimedInTurn(l, m.target, capacity, |Keep(used, Elements(l.b1))|, |Keep(used, Elements(l.b2))|)
    ensures AimedInTurn(l, TouchedOnce(m, table, capacity, key).target, capacity,
                        |Keep(used + [key], Elements(l.b1))|, |Keep(used + [key], Elements(l.b2))|)
  {
    hide Drop, Keep, MovedUp, TouchedOnce, RaisedTarget, LoweredTarget, Distinct;
    TargetIs(m, table, capacity, key);
    SameGhosts(l.b1, used, key);
    SameGhosts(l.b2, used, key);
    if key in l.b1 {
      assert key in Elements(l.b1);
      RaisedMore(l, m, capacity, |Keep(used, Elements(l.b1))|);
    } else if key in l.b2 {
      assert key in Elements(l.b2);
      LoweredMore(l, m, capacity, |Keep(used, Elements(l.b2))|);
    }
  }

  lemma SameGhosts(ghosts: seq<Key>, used: seq<Key>, key: Key)
    requires Distinct(ghosts)
    ensures var moved := MovedUp(ghosts, Elements(ghosts), used);
            |moved| == |ghosts| && (key in moved <==> key in ghosts)
    ensures |Keep(used + [key], Elements(ghosts))| == |Keep(used, Elements(ghosts))| + if key in ghosts then 1 else 0
  {
    var moved := MovedUp(ghosts, Elements(ghosts), used);
    KeepAppend(used, [key], Elements(ghosts));
    KeepOne(key, Elements(ghosts));
    DropDistinct(ghosts, Elements(used));
    LastUsesOnce(used);
    KeepDistinct(LastUses(used), Elements(ghosts));
    JoinDistinct(Drop(ghosts, Elements(used)), Keep(LastUses(used), Elements(ghosts)));
    assert Elements(moved) == Elements(ghosts);
    DistinctLength(moved);
    DistinctLength(ghosts);
  }

  lemma RaisedMore(l: Lists, m: Lists, capacity: nat, uses: nat)
    requires l.b1 != [] && |m.b1| == |l.b1| && |m.b2| == |l.b2| && 0.0 <= l.target <= capacity as real
    requires 0.0 <= m.target <= capacity as real
    ensures 0.0 <= RaisedTarget(m, capacity, 1) <= capacity as real
    ensures m.target == (if uses > 0 then RaisedTarget(l, capacity, uses) else l.target) ==>
              RaisedTarget(m, capacity, 1) == RaisedTarget(l, capacity, uses + 1)
  {
    var n, k := |l.b1| as real, |l.b2| as real;
    var delta := if k > n then k / n else 1.0;
    assert delta > 0.0;
    assert (uses + 1) as real * delta == uses as real * delta + delta;
  }

  lemma LoweredMore(l: Lists, m: Lists, capacity: nat, uses: nat)
    requires l.b2 != [] && |m.b1| == |l.b1| && |m.b2| == |l.b2| && 0.0 <= l.target <= capacity as real
    requires 0.0 <= m.target <= capacity as real
    ensures 0.0 <= LoweredTarget(m, 1) <= capacity as real
    ensures m.target == (if uses > 0 then LoweredTarget(l, uses) else l.target) ==>
              LoweredTarget(m, 1) == LoweredTarget(l, uses + 1)
  {
    var n, k := |l.b1| as real, |l.b2| as real;
    var delta := if n > k then n / k else 1.0;
    assert delta > 0.0;
    assert (uses + 1) as real * delta == uses as real * delta + delta;
  }

  lemma MovedOnce(list: seq<Key>, members: set<Key>, used: seq<Key>, key: Key)
    ensures var moved := MovedUp(list, members, used);
            && MovedUp(list, members, used + [key]) == Drop(moved, {key}) + (if key in members then [key] else [])
            && (key !in moved ==> Drop(moved, {key}) == moved)
  {
    MovedUpOneMore(list, members, used, key);
    if key !in MovedUp(list, members, used) {
      DropNothing(MovedUp(list, members, used), {key});
    }
  }

  lemma TargetIs(l: Lists, table: Table, capacity: nat, key: Key)
    requires key in l.b1 || key in l.b2 ==> key !in l.t1 && key !in l.t2
    ensures Aimed(l, TouchedOnce(l, table, capacity, key).target, capacity, key)
  {
    hide Drop, ToEnd;
    var n, m := |l.b1| as real, |l.b2| as real;
    if key in l.b1 {
      AboveOne(m, n);
    } else if key in l.b2 {
      AboveOne(n, m);
    }
  }

  lemma AboveOne(a: real, b: real)
    requires b > 0.0
    ensures a / b > 1.0 <==> a > b
  {
    assert a / b * b == a;
  }

  lemma InOneList(l: Lists, table: Table, key: Key)
    requires FourLists(l.t1, l.t2, l.b1, l.b2) && Elements(l.t1) + Elements(l.t2) == table.Keys
    ensures key in l.t1 || key in l.t2 <==> key in table
    ensures key in l.t1 ==> key !in l.t2 && key !in l.b1 && key !in l.b2
    ensures key in l.t2 ==> key !in l.b1 && key !in l.b2
    ensures key in l.b1 ==> key !in l.b2
  {
    assert forall list :: key in list <==> key in Elements<Key>(list);
  }

  lemma IsElement(key: Key)
    ensures forall list: seq<Key> :: key in list <==> key in Elements(list)
  {}

  lemma AtEnd(list: seq<Key>, key: Key)
    ensures key in ToEnd(list, key) && Freshest(list, ToEnd(list, key), key)
    ensures key !in Drop(list, {key}) && Freshest(list, Drop(list, {key}), key)
    ensures key !in list ==> Freshest(list, list, key) && Freshest(list, list + [key], key)
  {
    hide Drop;
    var none: seq<Key> := [];
    DropTwice(list, {key}, {key});
    assert {key} + {key} == {key};
    DropAppend(Drop(list, {key}), [key], {key});
    DropAppend(list, [key], {key});
    NoElements(Drop([key], {key}));
    assert Drop(list, {key}) + none == Drop(list, {key});
  }

  lemma MoveToEnd(list: seq<Key>, key: Key)
    requires Distinct(list)
    ensures Distinct(Drop(list, {key})) && Distinct(Drop(list, {key}) + [key])
    ensures Elements(Drop(list, {key})) == Elements(list) - {key}
    ensures Elements(Drop(list, {key}) + [key]) == Elements(list) + {key}
    ensures key in list ==> |Drop(list, {key}) + [key]| == |list|
  {
    DropDistinct(list, {key});
    assert Elements(Drop(list, {key}) + [key]) == Elements(list) + {key};
    if key in list {
      assert Elements(Drop(list, {key}) + [key]) == Elements(list);
      DistinctLength(list);
      DistinctLength(Drop(list, {key}) + [key]);
    }
  }

  lemma InsertKeepsLists(t1: seq<Key>, t2: seq<Key>, b1: seq<Key>, b2: seq<Key>, key: Key)
    requires FourLists(t1, t2, b1, b2) && key !in Elements(t1) + Elements(t2)
    ensures FourLists(t1 + [key], t2, Drop(b1, {key}), Drop(b2, {key}))
    ensures Elements(t1 + [key]) == Elements(t1) + {key}
  {
    assert key !in t1;
    DropDistinct(b1, {key});
    DropDistinct(b2, {key});
    assert Elements(t1 + [key]) == Elements(t1) + {key};
    assert Elements(Drop(b1, {key})) == Elements(b1) - {key};
    assert Elements(Drop(b2, {key})) == Elements(b2) - {key};
  }

  lemma JoinDistinct(a: seq<Key>, b: seq<Key>)
    requires Distinct(a) && Distinct(b) && Elements(a) !! Elements(b)
    ensures Distinct(a + b) && Elements(a + b) == Elements(a) + Elements(b)
  {
    forall i, j | 0 <= i < |a| && 0 <= j < |b| ensures a[i] != b[j] {
      assert a[i] in Elements(a) && b[j] in Elements(b);
    }
  }

  lemma TrimmedDistinct(ghosts: seq<Key>, capacity: nat)
    requires Distinct(ghosts)
    ensures Distinct(Trimmed(ghosts, capacity)) && Elements(Trimmed(ghosts, capacity)) <= Elements(ghosts)
  {}

  lemma HeldBy(table: Table, t1: seq<Key>, t2: seq<Key>)
    requires Elements(t1) + Elements(t2) == table.Keys
    ensures forall k :: k in Elements(t1) + Elements(t2) <==> k in table
  {}

  lemma TakenOutLists(t1: seq<Key>, t2: seq<Key>, b1: seq<Key>, b2: seq<Key>, picks: Picks, eligible: set<Key>,
                      capacity: nat)
    requires FourLists(t1, t2, b1, b2)
    requires picks.recent <= Keep(t1, eligible) && picks.frequent <= Keep(t2, eligible)
    ensures Distinct(picks.Order()) && forall k :: k in picks.Order() ==> k in eligible && k in Elements(t1) + Elements(t2)
    ensures var s1, s2 := Drop(t1, Elements(picks.recent)), Drop(t2, Elements(picks.frequent));
            && FourLists(s1, s2, Trimmed(b1 + picks.recent, capacity), Trimmed(b2 + picks.frequent, capacity))
            && Elements(s1) + Elements(s2) == Elements(t1) + Elements(t2) - Elements(picks.Order())
  {
    hide Drop, Keep, Distinct, Elements, Trimmed;
    VictimsBecomeGhosts(t1, b1, eligible, picks.recent, capacity);
    VictimsBecomeGhosts(t2, b2, eligible, picks.frequent, capacity);
    PicksAreIdle(picks, eligible, Elements(t1), Elements(t2));
  }

  /** Victims move from a cache list to the recent end of its ghosts. */
  lemma VictimsBecomeGhosts(list: seq<Key>, ghosts: seq<Key>, eligible: set<Key>, victims: seq<Key>, capacity: nat)
    requires Distinct(list) && Distinct(ghosts) && Elements(list) !! Elements(ghosts)
    requires victims <= Keep(list, eligible)
    ensures Distinct(victims) && Elements(victims) <= Elements(list) * eligible
    ensures Distinct(Drop(list, Elements(victims))) && Distinct(Trimmed(ghosts + victims, capacity))
    ensures Elements(Drop(list, Elements(victims))) == Elements(list) - Elements(victims)
    ensures Elements(Trimmed(ghosts + victims, capacity)) <= Elements(ghosts) + Elements(victims)
  {
    KeepDistinct(list, eligible);
    DropDistinct(list, Elements(victims));
    forall k | k in Elements(victims) ensures k in Elements(list) * eligible { assert k in Keep(list, eligible); }
    JoinDistinct(ghosts, victims);
    TrimmedDistinct(ghosts + victims, capacity);
  }
}
