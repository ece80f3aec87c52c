/** Memory as bytes by address, and what a list of copies does to it. */
module CopyEngine {

  type Byte = bv8

  /** Host and device memory share one address space. */
  type Memory = int -> Byte

  datatype Copy = Copy(src: int, dst: int, size: nat) {
    predicate Writes(a: int) { dst <= a < dst + size }

    predicate Reads(a: int) { src <= a < src + size }
  }

  function Apply(m: Memory, c: Copy): Memory {
    a => if c.Writes(a) then m(c.src + (a - c.dst)) else m(a)
  }

  /** All copies in their order. */
  function ApplyAll(m: Memory, cs: seq<Copy>): Memory {
    if cs == [] then m else Apply(ApplyAll(m, cs[..|cs| - 1]), cs[|cs| - 1])
  }

  predicate Written(cs: seq<Copy>, a: int) {
    exists c :: c in cs && c.Writes(a)
  }

  ghost predicate Same(m1: Memory, m2: Memory) {
    forall a: int :: m1(a) == m2(a)
  }

  /** The two memories may differ only in what `cs` overwrites. */
  ghost predicate SameOutside(m1: Memory, m2: Memory, cs: seq<Copy>) {
    forall a: int :: !Written(cs, a) ==> m1(a) == m2(a)
  }

  /** No byte is read by one of the copies and written by one. */
  ghost predicate Apart(cs: seq<Copy>) {
    forall c, a: int :: c in cs && c.Reads(a) ==> !Written(cs, a)
  }

  lemma {:induction false} ApplyAllAppend(m: Memory, cs: seq<Copy>, ds: seq<Copy>)
    ensures ApplyAll(m, cs + ds) == ApplyAll(ApplyAll(m, cs), ds)
  {
    if ds == [] {
      assert cs + ds == cs;
    } else {
      assert (cs + ds)[..|cs + ds| - 1] == cs + ds[..|ds| - 1];
      ApplyAllAppend(m, cs, ds[..|ds| - 1]);
    }
  }

  lemma {:induction false} SameAfter(m1: Memory, m2: Memory, cs: seq<Copy>)
    requires Same(m1, m2)
    ensures Same(ApplyAll(m1, cs), ApplyAll(m2, cs))
  {
    if cs != [] {
      SameAfter(m1, m2, cs[..|cs| - 1]);
    }
  }

  lemma {:induction false} UntouchedOutside(m: Memory, cs: seq<Copy>)
    ensures SameOutside(ApplyAll(m, cs), m, cs)
  {
    if cs != [] {
      var front := cs[..|cs| - 1];
      UntouchedOutside(m, front);
      forall a: int | !Written(cs, a) ensures ApplyAll(m, cs)(a) == m(a) {
        assert cs[|cs| - 1] in cs;
        assert forall c :: c in front ==> c in cs;
      }
    }
  }

  lemma PartOutside(m1: Memory, m2: Memory, part: seq<Copy>, cs: seq<Copy>)
    requires SameOutside(m1, m2, part) && forall c :: c in part ==> c in cs
    ensures SameOutside(m1, m2, cs)
  {
    assert forall a: int :: Written(part, a) ==> Written(cs, a);
  }

  /** The first `k` copies are done. Bytes only later copies write are garbage. */
  ghost predicate Rewritten(m: Memory, base: Memory, cs: seq<Copy>, k: nat)
    requires k <= |cs|
  {
    forall a: int :: Written(cs[..k], a) || !Written(cs, a) ==> m(a) == ApplyAll(base, cs[..k])(a)
  }

  /** One more copy, on top of whatever garbage is there. */
  lemma RewriteStep(m: Memory, after: Memory, base: Memory, cs: seq<Copy>, k: nat)
    requires k < |cs| && Apart(cs) && Rewritten(m, base, cs, k) && Same(after, Apply(m, cs[k]))
    ensures Rewritten(after, base, cs, k + 1)
  {
    var c := cs[k];
    var done := cs[..k + 1];
    assert done[..k] == cs[..k] && done[k] == c && done == cs[..k] + [c];
    forall a: int | Written(done, a) || !Written(cs, a) ensures after(a) == ApplyAll(base, done)(a) {
      if c.Writes(a) {
        assert c.Reads(c.src + (a - c.dst));
      } else {
        assert Written(done, a) ==> Written(cs[..k], a);
      }
    }
  }

  lemma RewriteDone(m: Memory, base: Memory, cs: seq<Copy>)
    requires Rewritten(m, base, cs, |cs|)
    ensures Same(m, ApplyAll(base, cs))
  {
    assert cs[..|cs|] == cs;
  }

  /** A rejected attempt of one copy spoils nothing the copy itself will not repair. */
  lemma RetryRepairs(m: Memory, spoiled: Memory, c: Copy)
    requires Apart([c]) && SameOutside(spoiled, m, [c])
    ensures Same(Apply(spoiled, c), Apply(m, c))
  {
    forall a: int ensures Apply(spoiled, c)(a) == Apply(m, c)(a) {
      if c.Writes(a) {
        assert c in [c] && c.Reads(c.src + (a - c.dst));
      } else {
        assert !Written([c], a);
      }
    }
  }

  /** A copy may be made in two pieces. */
  lemma TwoPieces(m: Memory, c: Copy, first: nat)
    requires Apart([c]) && first <= c.size
    ensures Same(Apply(Apply(m, Copy(c.src, c.dst, first)), Copy(c.src + first, c.dst + first, c.size - first)),
        Apply(m, c))
  {
    var one, two := Copy(c.src, c.dst, first), Copy(c.src + first, c.dst + first, c.size - first);
    forall a: int ensures Apply(Apply(m, one), two)(a) == Apply(m, c)(a) {
      var from := c.src + (a - c.dst);
      if c.Writes(a) {
        assert c in [c] && c.Reads(from);
        assert c.Writes(from) ==> Written([c], from);
        assert Apply(m, one)(from) == m(from);
        assert Apply(m, c)(a) == m(from);
        if two.Writes(a) {
          assert two.src + (a - two.dst) == from;
        } else {
          assert one.Writes(a);
        }
      } else {
        assert !one.Writes(a) && !two.Writes(a);
      }
    }
  }

  lemma SubsetApart(part: seq<Copy>, cs: seq<Copy>)
    requires Apart(cs) && forall c :: c in part ==> c in cs
    ensures Apart(part)
  {
    assert forall a: int :: Written(part, a) ==> Written(cs, a);
  }

  /** `all` carries out `cs` and `others`, interleaved in any order. */
  ghost predicate Mixes(all: seq<Copy>, cs: seq<Copy>, others: seq<Copy>) {
    forall c :: c in all <==> c in cs || c in others
  }

  /** If all that is written to a byte comes from bytes that nothing overwrites
      and is one value, the byte has it, whatever the order. */
  lemma {:induction false} OneValue(m: Memory, all: seq<Copy>, a: int, v: Byte)
    requires Written(all, a)
    requires forall c :: c in all && c.Writes(a) ==>
               var from := c.src + (a - c.dst); !Written(all, from) && m(from) == v
    ensures ApplyAll(m, all)(a) == v
  {
    var front, last := all[..|all| - 1], all[|all| - 1];
    assert all == front + [last];
    assert forall b: int :: Written(front, b) ==> Written(all, b);
    if last.Writes(a) {
      assert last in all && !Written(front, last.src + (a - last.dst));
      UntouchedOutside(m, front);
    } else {
      OneValue(m, front, a, v);
    }
  }
}
