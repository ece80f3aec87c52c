/** Sequences that stand for the source's ordered dictionaries: no key occurs
    twice, and filtering keeps the insertion order. */
module Sequences {

  datatype Option<+T> = None | Some(value: T)

  predicate Distinct<T(==)>(s: seq<T>) {
    forall i, j :: 0 <= i < j < |s| ==> s[i] != s[j]
  }

  function Elements<T>(s: seq<T>): set<T> {
    set x | x in s
  }

  /** The elements of `s` that are in `keep`, in their order in `s`. */
  function Keep<T(==,!new)>(s: seq<T>, keep: set<T>): (r: seq<T>)
    ensures forall x :: x in r <==> x in s && x in keep
    ensures |r| <= |s|
  {
    if s == [] then []
    else if s[|s| - 1] in keep then Keep(s[..|s| - 1], keep) + [s[|s| - 1]]
    else Keep(s[..|s| - 1], keep)
  }

  /** The elements of `s` that are not in `drop`, in their order in `s`. */
  function Drop<T(==,!new)>(s: seq<T>, drop: set<T>): (r: seq<T>)
    ensures forall x :: x in r <==> x in s && x !in drop
    ensures |r| <= |s|
  {
    Keep(s, Elements(s) - drop)
  }

  function Reverse<T>(s: seq<T>): (r: seq<T>)
    ensures |r| == |s|
    ensures forall i :: 0 <= i < |s| ==> r[i] == s[|s| - 1 - i]
  {
    if s == [] then [] else [s[|s| - 1]] + Reverse(s[..|s| - 1])
  }

  lemma {:induction false} KeepAppend<T(!new)>(s: seq<T>, t: seq<T>, keep: set<T>)
    ensures Keep(s + t, keep) == Keep(s, keep) + Keep(t, keep)
  {
    if t == [] {
      assert s + t == s;
    } else {
      var t' := t[..|t| - 1];
      assert (s + t)[..|s + t| - 1] == s + t';
      KeepAppend(s, t', keep);
    }
  }

  lemma {:induction false} KeepDistinct<T(!new)>(s: seq<T>, keep: set<T>)
    requires Distinct(s)
    ensures Distinct(Keep(s, keep))
  {
    if s != [] {
      KeepDistinct(s[..|s| - 1], keep);
    }
  }

  /** Only membership of the elements of `s` matters. */
  lemma {:induction false} KeepSame<T(!new)>(s: seq<T>, k1: set<T>, k2: set<T>)
    requires forall x :: x in s ==> (x in k1 <==> x in k2)
    ensures Keep(s, k1) == Keep(s, k2)
  {
    if s != [] {
      KeepSame(s[..|s| - 1], k1, k2);
    }
  }

  lemma {:induction false} KeepAll<T(!new)>(s: seq<T>, keep: set<T>)
    requires forall x :: x in s ==> x in keep
    ensures Keep(s, keep) == s
  {
    if s != [] {
      KeepAll(s[..|s| - 1], keep);
    }
  }

  lemma {:induction false} KeepNone<T(!new)>(s: seq<T>, keep: set<T>)
    requires forall x :: x in s ==> x !in keep
    ensures Keep(s, keep) == []
  {
    if s != [] {
      KeepNone(s[..|s| - 1], keep);
    }
  }

  lemma {:induction false} KeepTwice<T(!new)>(s: seq<T>, k1: set<T>, k2: set<T>)
    ensures Keep(Keep(s, k1), k2) == Keep(s, k1 * k2)
  {
    if s != [] {
      var front := s[..|s| - 1];
      KeepTwice(front, k1, k2);
      if s[|s| - 1] in k1 {
        KeepAppend(Keep(front, k1), [s[|s| - 1]], k2);
        assert Keep([s[|s| - 1]], k2) == if s[|s| - 1] in k2 then [s[|s| - 1]] else [];
      }
    }
  }

  /** Filtering a prefix gives a prefix of the filtered sequence. */
  lemma KeepPrefix<T(!new)>(s: seq<T>, i: nat, keep: set<T>)
    requires i <= |s|
    ensures Keep(s[..i], keep) <= Keep(s, keep)
  {
    assert s == s[..i] + s[i..];
    KeepAppend(s[..i], s[i..], keep);
  }

  /** One more element of the scan. */
  lemma KeepStep<T(!new)>(s: seq<T>, i: nat, keep: set<T>)
    requires i < |s|
    ensures Keep(s[..i + 1], keep) ==
            Keep(s[..i], keep) + (if s[i] in keep then [s[i]] else [])
  {
    assert s[..i + 1][..i] == s[..i];
  }

  /** Taking away the first `a` kept elements leaves the rest, in order. */
  lemma KeepWithoutPrefix<T(!new)>(s: seq<T>, keep: set<T>, a: nat)
    requires Distinct(s) && a <= |Keep(s, keep)|
    ensures Keep(s, keep - Elements(Keep(s, keep)[..a])) == Keep(s, keep)[a..]
  {
    var k := Keep(s, keep);
    var first, rest := k[..a], k[a..];
    KeepDistinct(s, keep);
    assert k == first + rest;
    KeepTwice(s, keep, Elements(rest));
    KeepAppend(first, rest, Elements(rest));
    KeepNone(first, Elements(rest));
    KeepAll(rest, Elements(rest));
    KeepSame(s, keep * Elements(rest), keep - Elements(first));
  }

  lemma DropDistinct<T(!new)>(s: seq<T>, drop: set<T>)
    requires Distinct(s)
    ensures Distinct(Drop(s, drop))
  {
    KeepDistinct(s, Elements(s) - drop);
  }

  lemma DropNothing<T(!new)>(s: seq<T>, drop: set<T>)
    requires forall x :: x in s ==> x !in drop
    ensures Drop(s, drop) == s
  {
    KeepAll(s, Elements(s) - drop);
  }

  lemma DropAppend<T(!new)>(s: seq<T>, t: seq<T>, drop: set<T>)
    ensures Drop(s + t, drop) == Drop(s, drop) + Drop(t, drop)
  {
    var keep := Elements(s + t) - drop;
    KeepAppend(s, t, keep);
    KeepSame(s, keep, Elements(s) - drop);
    KeepSame(t, keep, Elements(t) - drop);
  }

  lemma DropTwice<T(!new)>(s: seq<T>, d1: set<T>, d2: set<T>)
    ensures Drop(Drop(s, d1), d2) == Drop(s, d1 + d2)
  {
    var once := Drop(s, d1);
    KeepTwice(s, Elements(s) - d1, Elements(once) - d2);
    KeepSame(s, (Elements(s) - d1) * (Elements(once) - d2), Elements(s) - (d1 + d2));
  }

  /** Each element once, where `s` has it for the last time. */
  function LastUses<T(==,!new)>(s: seq<T>): (r: seq<T>)
    ensures forall x :: x in r <==> x in s
  {
    if s == [] then [] else Drop(LastUses(s[..|s| - 1]), {s[|s| - 1]}) + [s[|s| - 1]]
  }

  lemma {:induction false} LastUsesOnce<T(!new)>(s: seq<T>)
    ensures Distinct(LastUses(s)) && (Distinct(s) ==> LastUses(s) == s)
  {
    hide Drop;
    if s != [] {
      var front, last := s[..|s| - 1], s[|s| - 1];
      LastUsesOnce(front);
      DropDistinct(LastUses(front), {last});
      AppendDistinct(Drop(LastUses(front), {last}), last);
      if Distinct(s) {
        DropNothing(LastUses(front), {last});
      }
    }
  }

  /** `list` after the elements of `used` that belong to it came to its end one
      after the other, and the others left it. */
  function MovedUp<T(==,!new)>(list: seq<T>, members: set<T>, used: seq<T>): (r: seq<T>)
    ensures forall x :: x in r <==> (if x in used then x in members else x in list)
  {
    Drop(list, Elements(used)) + Keep(LastUses(used), members)
  }

  lemma NoneMovedUp<T(!new)>(list: seq<T>, members: set<T>)
    ensures MovedUp(list, members, []) == list
  {
    DropNothing(list, Elements([]));
  }

  lemma MovedUpOneMore<T(!new)>(list: seq<T>, members: set<T>, used: seq<T>, x: T)
    ensures MovedUp(list, members, used + [x])
            == Drop(MovedUp(list, members, used), {x}) + if x in members then [x] else []
  {
    hide Keep, Drop, LastUses, Elements;
    var front, moved := Drop(list, Elements(used)), Keep(LastUses(used), members);
    OneMoreUse(used, x);
    DropAppend(front, moved, {x});
    DropTwice(list, Elements(used), {x});
    KeepAppend(Drop(LastUses(used), {x}), [x], members);
    KeepOne(x, members);
    KeepThenDrop(LastUses(used), members, {x});
  }

  lemma OneMoreUse<T(!new)>(used: seq<T>, x: T)
    ensures Elements(used + [x]) == Elements(used) + {x}
    ensures LastUses(used + [x]) == Drop(LastUses(used), {x}) + [x]
  {
    assert (used + [x])[..|used + [x]| - 1] == used;
  }

  lemma KeepOne<T(!new)>(x: T, keep: set<T>)
    ensures Keep([x], keep) == if x in keep then [x] else []
  {}

  lemma KeepThenDrop<T(!new)>(s: seq<T>, keep: set<T>, drop: set<T>)
    ensures Keep(Drop(s, drop), keep) == Drop(Keep(s, keep), drop)
  {
    var kept := Keep(s, keep);
    KeepTwice(s, Elements(s) - drop, keep);
    KeepTwice(s, keep, Elements(kept) - drop);
    KeepSame(s, (Elements(s) - drop) * keep, keep * (Elements(kept) - drop));
  }

  /** A sequence without repetitions is as long as its set of elements. */
  lemma {:induction false} DistinctLength<T(!new)>(s: seq<T>)
    requires Distinct(s)
    ensures |Elements(s)| == |s|
  {
    if s != [] {
      var front, last := s[..|s| - 1], s[|s| - 1];
      DistinctLength(front);
      assert s == front + [last];
      AppendDistinct(front, last);
      assert last !in Elements(front);
    }
  }

  lemma AppendDistinct<T(!new)>(s: seq<T>, x: T)
    requires Distinct(s) && x !in s
    ensures Distinct(s + [x]) && Elements(s + [x]) == Elements(s) + {x}
  {}

  lemma {:induction false} SubsetSize<T(!new)>(a: set<T>, b: set<T>)
    requires a <= b
    ensures |a| <= |b|
    decreases |a|
  {
    if a != {} {
      var x :| x in a;
      SubsetSize(a - {x}, b - {x});
    }
  }

  /** The numbers below `n`. */
  function Below(n: nat): (r: set<nat>)
    ensures forall i: nat :: i in r <==> i < n
  {
    if n == 0 then {} else Below(n - 1) + {n - 1}
  }

  lemma {:induction false} BelowSize(n: nat)
    ensures |Below(n)| == n
  {
    if n > 0 {
      BelowSize(n - 1);
    }
  }
}
