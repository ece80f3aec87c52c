/** The longest prefix that every kind of KV cache group still holds. */
module HybridHit {
  import opened Arithmetic
  import opened Sequences

  /** Groups with the same cache spec. `margin` is what an EAGLE lookup matches
      beyond the candidate and drops again. */
  datatype SpecGroup = SpecGroup(isFull: bool, isMamba: bool, blockSize: nat, useEagle: bool, margin: nat)

  /** What the caches hold: the prefix lengths a group accepts, its blocks for
      each of them, and what is left of the match up to a length when its end
      is dropped. */
  datatype Caches = Caches(accepts: (nat, nat) -> bool, blocks: (nat, nat) -> seq<nat>, dropped: (nat, nat) -> nat)

  /** The largest length not above `max` that the group accepts. */
  function Greatest(caches: Caches, g: nat, max: nat): (r: nat)
    ensures r <= max && (r == 0 || caches.accepts(g, r))
    ensures forall l: nat :: l <= max && caches.accepts(g, l) ==> l <= r
  {
    if max == 0 || caches.accepts(g, max) then max else Greatest(caches, g, max - 1)
  }

  ghost predicate Common(caches: Caches, n: nat, l: nat) {
    forall g: nat :: g < n ==> caches.accepts(g, l)
  }

  ghost predicate IsGreatestCommon(caches: Caches, n: nat, max: nat, l: nat) {
    l <= max && Common(caches, n, l) && forall k: nat :: k <= max && Common(caches, n, k) ==> k <= l
  }

  predicate AllNone(blocks: seq<Option<seq<nat>>>) {
    forall g :: 0 <= g < |blocks| ==> blocks[g].None?
  }

  /** What is found when each group is bounded by the one before it. */
  function Depth(caches: Caches, g: nat, max: nat): nat {
    Greatest(caches, g, if g == 0 then max else Depth(caches, g - 1, max))
  }

  class HybridCoordinator {
    const groups: seq<SpecGroup>
    const caches: Caches
    const alignment: nat

    /** What the groups' own lookups promise. Full attention holds every aligned
        prefix of what it holds, and comes first. */
    ghost predicate Valid() {
      && alignment > 0 && |groups| > 1
      && (forall g :: 0 <= g < |groups| ==> groups[g].blockSize > 0)
      && (forall g: nat :: g < |groups| ==> caches.accepts(g, 0))
      && (forall g: nat, l: nat :: g < |groups| && caches.accepts(g, l) ==>
            l % alignment == 0 && |caches.blocks(g, l)| == CeilDiv(l, groups[g].blockSize))
      && (forall g: nat, l: nat, k: nat ::
            g < |groups| && groups[g].isFull && caches.accepts(g, l) && k <= l && k % alignment == 0 ==>
            caches.accepts(g, k) && caches.blocks(g, k) <= caches.blocks(g, l))
      && (forall g, h :: 0 <= g < h < |groups| && groups[h].isFull ==> groups[g].isFull)
      && (forall g: nat, max: nat :: g < |groups| ==>
            var l := caches.dropped(g, max);
            caches.accepts(g, l) && (l + groups[g].margin <= max || l == 0))
    }

    predicate DropsNow(g: nat, verified: set<nat>)
      requires g < |groups|
    {
      groups[g].useEagle && g !in verified
    }

    /** The answer of a group that is looked up with the candidate `curr`: what it
        holds of it, or what is left of one more unit once that is dropped. */
    function Answer(g: nat, curr: nat, max: nat, verified: set<nat>): nat
      requires g < |groups|
    {
      if !DropsNow(g, verified) || groups[g].isMamba then Greatest(caches, g, curr)
      else caches.dropped(g, if curr + groups[g].margin < max then curr + groups[g].margin else max)
    }

    ghost predicate NoEagle() {
      forall g :: 0 <= g < |groups| ==> !groups[g].useEagle
    }

    constructor (groups: seq<SpecGroup>, caches: Caches, alignment: nat)
      ensures this.groups == groups && this.caches == caches && this.alignment == alignment
    {
      this.groups, this.caches, this.alignment := groups, caches, alignment;
    }

    /** A group's own lookup. Models of draft tokens have no recurrent layers, so
        those never drop. */
    method Find(g: nat, maxLength: nat, drop: bool) returns (length: nat, blocks: seq<nat>)
      requires Valid() && g < |groups|
      ensures caches.accepts(g, length) && blocks == caches.blocks(g, length)
      ensures length == if drop && !groups[g].isMamba then caches.dropped(g, maxLength) else Greatest(caches, g, maxLength)
    {
      length := if drop && !groups[g].isMamba then caches.dropped(g, maxLength) else Greatest(caches, g, maxLength);
      blocks := caches.blocks(g, length);
    }

    /** What is known of the groups looked at so far in a pass that began at
        `hit`: their lengths lie between the current one and `hit`. */
    ghost predicate Looked(n: nat, hit: nat, curr: nat, lengths: seq<nat>, blocks: seq<Option<seq<nat>>>) {
      && n <= |lengths| == |blocks| == |groups|
      && (forall g :: 0 <= g < |groups| && blocks[g].Some? ==>
            caches.accepts(g, lengths[g]) && blocks[g].value == caches.blocks(g, lengths[g]))
      && (forall g :: 0 <= g < n ==> blocks[g].Some? && curr <= lengths[g] && (!groups[g].isFull ==> lengths[g] <= hit))
      && (forall g :: 0 <= g < |groups| && groups[g].isFull && blocks[g].Some? ==> hit <= lengths[g] || g < n)
    }

    /** One group's turn: a full attention group looks once and is trimmed later. */
    method LookUp(g: nat, hit: nat, curr: nat, max: nat, verified: set<nat>, lengths: seq<nat>,
                  blocks: seq<Option<seq<nat>>>)
      returns (curr': nat, verified': set<nat>, lengths': seq<nat>, blocks': seq<Option<seq<nat>>>)
      requires Valid() && g < |groups| && curr <= hit <= max && Looked(g, hit, curr, lengths, blocks)
      requires blocks[g].Some? ==> curr % alignment == 0
      ensures curr' <= curr && curr' % alignment == 0 && Looked(g + 1, hit, curr', lengths', blocks')
      ensures |lengths'| == |blocks'| == |groups|
      ensures groups[g].isFull && blocks[g].Some? ==> curr' == curr && lengths' == lengths && blocks' == blocks
      ensures !(groups[g].isFull && blocks[g].Some?) ==>
                lengths' == lengths[g := curr'] && blocks' == blocks[g := Some(caches.blocks(g, curr'))]
      ensures !(groups[g].isFull && blocks[g].Some?) ==>
                && curr' == Answer(g, curr, max, verified)
                && verified' == if DropsNow(g, verified) then verified + {g} else if curr' < curr then {} else verified
      ensures groups[g].isFull && blocks[g].Some? ==> verified' == verified
      ensures !(groups[g].isFull && blocks[g].Some?) ==>
                var most := if curr + groups[g].margin < max then curr + groups[g].margin else max;
                if groups[g].useEagle && g !in verified
                then verified' == verified + {g} && (!groups[g].isMamba ==> curr' == caches.dropped(g, most))
                else verified' == if curr' < curr then {} else verified
      ensures !(groups[g].isFull && blocks[g].Some?) && (groups[g].useEagle && g !in verified ==> groups[g].isMamba) ==>
                forall l: nat :: l <= curr && caches.accepts(g, l) ==> l <= curr'
    {
      if groups[g].isFull && blocks[g].Some? {
        curr' := if curr < lengths[g] then curr else lengths[g];
        return curr', verified, lengths, blocks;
      }
      var drop := groups[g].useEagle && g !in verified;
      var maxLength := curr;
      if drop && !groups[g].isMamba {
        maxLength := if curr + groups[g].margin < max then curr + groups[g].margin else max;
      }
      var length, found := Find(g, maxLength, drop);
      verified' := if drop then verified + {g} else if length < curr then {} else verified;
      curr', lengths', blocks' := length, lengths[g := length], blocks[g := Some(found)];
    }

    /** Without EAGLE: no common length is lost, and in the first pass full
        attention groups see what those before them left over. */
    ghost predicate Exact(g: nat, hit: nat, curr: nat, lengths: seq<nat>, longest: nat, longest0: nat, firstPass: bool) {
      && |lengths| == |groups| && g <= |groups|
      && (forall l: nat :: l <= hit && Common(caches, |groups|, l) ==> l <= curr)
      && (longest0 == 0 ==> longest == if g == 0 then 0 else Greatest(caches, 0, hit))
      && (hit <= longest0 ==> longest == longest0)
      && (firstPass ==>
            && (forall h: nat :: h < g && groups[h].isFull ==> lengths[h] == Depth(caches, h, hit))
            && (g > 0 && groups[g - 1].isFull ==> curr == Depth(caches, g - 1, hit)))
    }

    lemma ExactStep(g: nat, hit: nat, curr: nat, lengths: seq<nat>, longest: nat, longest0: nat, firstPass: bool,
                    curr': nat, lengths': seq<nat>, looksUp: bool)
      requires Valid() && g < |groups| && Exact(g, hit, curr, lengths, longest, longest0, firstPass) && curr <= hit
      requires if g == 0 then curr == hit else curr <= longest
      requires if looksUp then curr' == Greatest(caches, g, curr) && lengths' == lengths[g := curr']
               else curr' == curr && lengths' == lengths && !firstPass && hit <= longest0
      ensures Exact(g + 1, hit, curr', lengths', if looksUp && longest < curr' then curr' else longest, longest0,
          firstPass)
    {
      if looksUp {
        CommonKept(g, hit, curr, curr');
        if groups[g].isFull {
          assert g > 0 ==> groups[g - 1].isFull;
          assert Depth(caches, g, hit) == Greatest(caches, g, if g == 0 then hit else Depth(caches, g - 1, hit));
        }
      }
      hide Common, HybridCoordinator.Valid;
    }

    lemma CommonKept(g: nat, hit: nat, curr: nat, curr': nat)
      requires g < |groups| && curr' == Greatest(caches, g, curr)
      requires forall l: nat :: l <= hit && Common(caches, |groups|, l) ==> l <= curr
      ensures forall l: nat :: l <= hit && Common(caches, |groups|, l) ==> l <= curr'
    {
      forall l: nat | l <= hit && Common(caches, |groups|, l) ensures l <= curr' {
        assert l <= curr && caches.accepts(g, l);
      }
    }

    /** What holds of a pass once `g` groups have had their turn; `was` are the
        blocks and `lengths0` the lengths the pass began with. */
    ghost predicate Turned(g: nat, hit: nat, curr: nat, lengths: seq<nat>, blocks: seq<Option<seq<nat>>>, longest: nat,
                           lengths0: seq<nat>, was: seq<Option<seq<nat>>>, longest0: nat) {
      && g <= |groups| == |lengths| == |blocks| == |was| == |lengths0| && alignment > 0
      && curr <= hit && Looked(g, hit, curr, lengths, blocks) && longest0 <= longest
      && (if g == 0 then curr == hit else curr % alignment == 0 && curr <= longest)
      && (forall h :: g <= h < |groups| ==> blocks[h] == was[h])
      && (g > 0 && !groups[g - 1].isFull ==> lengths[g - 1] == curr)
      && (forall h :: 0 <= h < |groups| && groups[h].isFull && was[h].Some? ==> lengths[h] == lengths0[h])
      && (NoEagle() ==> Exact(g, hit, curr, lengths, longest, longest0, AllNone(was)))
    }

    method Turn(g: nat, hit: nat, curr: nat, max: nat, verified: set<nat>, lengths: seq<nat>,
                blocks: seq<Option<seq<nat>>>, longest: nat, ghost lengths0: seq<nat>, ghost was: seq<Option<seq<nat>>>,
                ghost longest0: nat)
      returns (curr': nat, verified': set<nat>, lengths': seq<nat>, blocks': seq<Option<seq<nat>>>, longest': nat)
      requires Valid() && g < |groups| == |was| && alignment > 0 && hit <= max
      requires Turned(g, hit, curr, lengths, blocks, longest, lengths0, was, longest0)
      requires was[g].Some? ==> hit % alignment == 0 && hit <= longest0
      ensures Turned(g + 1, hit, curr', lengths', blocks', longest', lengths0, was, longest0)
    {
      hide CeilDiv, Greatest, Depth, Exact, Common, Looked, HybridCoordinator.Valid;
      var looksUp := !(groups[g].isFull && blocks[g].Some?);
      curr', verified', lengths', blocks' := LookUp(g, hit, curr, max, verified, lengths, blocks);
      if NoEagle() {
        ExactStep(g, hit, curr, lengths, longest, longest0, AllNone(was), curr', lengths', looksUp);
      }
      longest' := if looksUp && longest < curr' then curr' else longest;
    }

    /** All groups once, each bounded by those before it. */
    method Pass(hit: nat, max: nat, verified: set<nat>, lengths: seq<nat>, blocks: seq<Option<seq<nat>>>, longest: nat)
      returns (curr: nat, verified': set<nat>, lengths': seq<nat>, blocks': seq<Option<seq<nat>>>, longest': nat)
      requires Valid() && hit <= max && Looked(0, hit, hit, lengths, blocks)
      requires |lengths| == |blocks| == |groups| && alignment > 0
      requires (exists g :: 0 <= g < |blocks| && blocks[g].Some?) ==> hit % alignment == 0 && hit <= longest
      ensures Turned(|groups|, hit, curr, lengths', blocks', longest', lengths, blocks, longest)
    {
      hide Turned, Looked, HybridCoordinator.Valid;
      ExactAtFirst(hit, lengths, blocks, longest);
      curr, verified', lengths', blocks', longest' := hit, verified, lengths, blocks, longest;
      for g := 0 to |groups|
        invariant Turned(g, hit, curr, lengths', blocks', longest', lengths, blocks, longest)
      {
        curr, verified', lengths', blocks', longest' := Turn(g, hit, curr, max, verified', lengths', blocks',
            longest', lengths, blocks, longest);
      }
    }

    lemma ExactAtFirst(hit: nat, lengths: seq<nat>, blocks: seq<Option<seq<nat>>>, longest: nat)
      requires |lengths| == |blocks| == |groups| && alignment > 0 && Looked(0, hit, hit, lengths, blocks)
      ensures Turned(0, hit, hit, lengths, blocks, longest, lengths, blocks, longest)
    {}

    /** When the passes end, all groups accept the length, and their blocks
        cover it, those of full attention with some to spare. */
    lemma Agreed(start: nat, hit: nat, lengths: seq<nat>, found: seq<Option<seq<nat>>>)
      requires Valid() && Looked(|groups|, start, hit, lengths, found) && hit % alignment == 0
      requires hit == start || (|groups| == 2 && groups[0].isFull && (!groups[1].isFull ==> lengths[1] == hit))
      ensures forall g: nat :: g < |groups| ==> caches.accepts(g, hit)
      ensures forall g: nat :: g < |groups| && !groups[g].isFull ==> found[g].value == caches.blocks(g, hit)
      ensures forall g: nat :: g < |groups| && groups[g].isFull ==>
                var needed := CeilDiv(hit, groups[g].blockSize);
                needed <= |found[g].value| && found[g].value[..needed] == caches.blocks(g, hit)
    {
      hide CeilDiv;
      forall g: nat | g < |groups| ensures !groups[g].isFull ==> lengths[g] == hit {
        assert !groups[g].isFull ==> hit <= lengths[g] <= start;
      }
    }

    /** What the passes end with: all groups accept the length, their blocks cover
        it, those of full attention with some to spare. */
    ghost predicate Settled(hit: nat, found: seq<Option<seq<nat>>>)
      requires Valid()
    {
      && |found| == |groups| && (forall g :: 0 <= g < |groups| ==> found[g].Some?) && Common(caches, |groups|, hit)
      && forall g: nat :: g < |groups| ==>
           if groups[g].isFull then
             var needed := CeilDiv(hit, groups[g].blockSize);
             needed <= |found[g].value| && found[g].value[..needed] == caches.blocks(g, hit)
           else found[g].value == caches.blocks(g, hit)
    }

    /** Without EAGLE, what the full attention groups found at first, and that no
        common length was lost. */
    ghost predicate SettledExactly(max: nat, hit: nat, found: seq<Option<seq<nat>>>, longest: nat)
      requires |found| == |groups| && (forall g :: 0 <= g < |groups| ==> found[g].Some?)
    {
      && IsGreatestCommon(caches, |groups|, max, hit) && hit <= longest == Greatest(caches, 0, max)
      && forall g: nat :: g < |groups| && groups[g].isFull ==>
           found[g].value == caches.blocks(g, Depth(caches, g, max))
    }

    /** What holds between the passes; `first` before any of them. */
    ghost predicate Searching(max: nat, hit: nat, lengths: seq<nat>, found: seq<Option<seq<nat>>>, longest: nat,
                              first: bool) {
      && hit <= max && alignment > 0 && Looked(0, hit, hit, lengths, found)
      && (if first then hit == max && longest == 0 && AllNone(found)
          else hit % alignment == 0 && hit <= longest && forall g :: 0 <= g < |groups| ==> found[g].Some?)
      && (NoEagle() ==> forall l: nat :: l <= max && Common(caches, |groups|, l) ==> l <= hit)
      && (NoEagle() && !first ==>
            && longest == Greatest(caches, 0, max)
            && forall g: nat :: g < |groups| && groups[g].isFull ==> lengths[g] == Depth(caches, g, max))
    }

    /** ... and it holds again after a pass. */
    lemma SearchedOn(max: nat, hit: nat, lengths: seq<nat>, found: seq<Option<seq<nat>>>, longest: nat, first: bool,
                     curr: nat, lengths': seq<nat>, found': seq<Option<seq<nat>>>, longest': nat)
      requires |groups| > 0 && Searching(max, hit, lengths, found, longest, first)
      requires Turned(|groups|, hit, curr, lengths', found', longest', lengths, found, longest)
      ensures Searching(max, curr, lengths', found', longest', false) && curr <= hit
      ensures Looked(|groups|, hit, curr, lengths', found')
      ensures !groups[|groups| - 1].isFull ==> lengths'[|groups| - 1] == curr
    {
      hide Greatest, Depth, Common;
      assert first ==> AllNone(found);
    }

    lemma SearchEnds(max: nat, start: nat, hit: nat, lengths: seq<nat>, found: seq<Option<seq<nat>>>, longest: nat)
      requires Valid() && Searching(max, hit, lengths, found, longest, false)
      requires Looked(|groups|, start, hit, lengths, found)
      requires hit == start || (|groups| == 2 && groups[0].isFull && (!groups[1].isFull ==> lengths[1] == hit))
      ensures hit <= longest && Settled(hit, found)
      ensures NoEagle() ==> SettledExactly(max, hit, found, longest)
    {
      hide CeilDiv, Greatest, Depth;
      Agreed(start, hit, lengths, found);
    }

    /** Passes until the length does not shrink any more; one pass is enough for
        full attention and one other kind of group. */
    method Search(max: nat, shortcut: bool) returns (hit: nat, found: seq<Option<seq<nat>>>, longest: nat)
      requires Valid() && (shortcut ==> |groups| == 2 && groups[0].isFull)
      ensures hit <= max && hit <= longest && Settled(hit, found)
      ensures NoEagle() ==> SettledExactly(max, hit, found, longest)
    {
      hide Searching, Turned, Settled, SettledExactly;
      hit, longest := max, 0;
      found := seq(|groups|, _ => None);
      var lengths: seq<nat> := seq(|groups|, _ => 0);
      var verified: set<nat> := {};
      ghost var start, first := max, true;
      SearchBegins(max, lengths, found);
      while true
        invariant Searching(max, hit, lengths, found, longest, first)
        decreases hit
      {
        ghost var before, was, most := lengths, found, longest;
        MayPass(max, hit, lengths, found, longest, first);
        var curr;
        start := hit;
        curr, verified, lengths, found, longest := Pass(hit, max, verified, lengths, found, longest);
        SearchedOn(max, start, before, was, most, first, curr, lengths, found, longest);
        var done := curr >= hit || shortcut;
        hit, first := curr, false;
        if done {
          break;
        }
      }
      MayPass(max, hit, lengths, found, longest, first);
      SearchEnds(max, start, hit, lengths, found, longest);
    }

    lemma SearchBegins(max: nat, lengths: seq<nat>, found: seq<Option<seq<nat>>>)
      requires Valid() && |lengths| == |found| == |groups| && AllNone(found)
      ensures Searching(max, max, lengths, found, 0, true)
    {}

    lemma MayPass(max: nat, hit: nat, lengths: seq<nat>, found: seq<Option<seq<nat>>>, longest: nat, first: bool)
      requires Searching(max, hit, lengths, found, longest, first)
      ensures hit <= max && |lengths| == |found| == |groups| && alignment > 0 && Looked(0, hit, hit, lengths, found)
      ensures (exists g :: 0 <= g < |found| && found[g].Some?) ==> hit % alignment == 0 && hit <= longest
    {}

    /** The result is the largest length every group accepts, the blocks of each
        group cover exactly it, and what the first group holds beyond it is
        reported. */
    method FindLongestCacheHit(max: nat, shortcut: bool) returns (hit: nat, blocks: seq<seq<nat>>, uncached: nat)
      requires Valid() && (shortcut ==> |groups| == 2 && groups[0].isFull)
      ensures hit <= max && |blocks| == |groups| && Common(caches, |groups|, hit)
      ensures NoEagle() ==> IsGreatestCommon(caches, |groups|, max, hit) && uncached == Greatest(caches, 0, max) - hit
      ensures forall g: nat :: g < |groups| && (g == 0 || !groups[g].isFull) ==> blocks[g] == caches.blocks(g, hit)
      ensures NoEagle() ==> forall g: nat :: 0 < g < |groups| && groups[g].isFull ==>
                && blocks[g] == caches.blocks(g, Depth(caches, g, max))
                && (blocks[g] == caches.blocks(g, hit) <==> SharedLastBlock(g, max))
    {
      hide CeilDiv, Greatest, Depth, Common, IsGreatestCommon, SharedLastBlock;
      var found, longest;
      hit, found, longest := Search(max, shortcut);
      blocks := Trimmed(hit, found);
      uncached := longest - hit;
      if NoEagle() {
        forall g: nat | 0 < g < |groups| && groups[g].isFull
          ensures caches.blocks(g, Depth(caches, g, max)) == caches.blocks(g, hit) <==> SharedLastBlock(g, max)
        {
          ExtraFullGroupExactIff(g, max, hit);
        }
      }
    }

    /** Only the first group's list is cut, and only for full attention. */
    method Trimmed(hit: nat, found: seq<Option<seq<nat>>>) returns (blocks: seq<seq<nat>>)
      requires Valid() && |found| == |groups| && forall g :: 0 <= g < |groups| ==> found[g].Some?
      requires groups[0].isFull ==> CeilDiv(hit, groups[0].blockSize) <= |found[0].value|
      ensures |blocks| == |groups| && forall g :: 0 < g < |groups| ==> blocks[g] == found[g].value
      ensures blocks[0] == if groups[0].isFull then found[0].value[..CeilDiv(hit,
          groups[0].blockSize)] else found[0].value
    {
      blocks := seq(|groups|, g requires 0 <= g < |groups| => found[g].value);
      if groups[0].isFull {
        blocks := blocks[0 := blocks[0][..CeilDiv(hit, groups[0].blockSize)]];
      }
    }

    /** The first lookups of full attention find the largest length that this
        group and all before it accept. */
    lemma {:induction false} DepthIs(g: nat, max: nat)
      requires Valid() && g < |groups| && groups[g].isFull
      ensures IsGreatestCommon(caches, g + 1, max, Depth(caches, g, max))
      decreases g
    {
      if g == 0 {
        DepthNext(g, 1, max, max);
      } else {
        DepthIs(g - 1, max);
        DepthNext(g, g + 1, max, Depth(caches, g - 1, max));
      }
    }

    lemma DepthNext(g: nat, n: nat, max: nat, before: nat)
      requires Valid() && g < |groups| && n == g + 1 && groups[g].isFull && before <= max
      requires if g == 0 then before == max else IsGreatestCommon(caches, g, max, before)
      ensures IsGreatestCommon(caches, n, max, Greatest(caches, g, before))
    {
      hide Greatest;
      var d := Greatest(caches, g, before);
      forall h: nat | h < n ensures caches.accepts(h, d) {
        if h < g {
          assert caches.accepts(h, before) && d % alignment == 0;
        }
      }
      forall l: nat | l <= max && Common(caches, n, l) ensures l <= d {
        assert Common(caches, g, l) && caches.accepts(g, l);
      }
    }

    /** All groups accept some length that ends in the last block of the deepest
        prefix that the first `g + 1` groups, all of full attention, share. */
    ghost predicate SharedLastBlock(g: nat, max: nat)
      requires g < |groups| && groups[g].blockSize > 0
    {
      exists l: nat :: EndsInLastBlock(g, max, l)
    }

    ghost predicate EndsInLastBlock(g: nat, max: nat, l: nat)
      requires g < |groups| && groups[g].blockSize > 0
    {
      && l <= max && caches.accepts(g, l) && Common(caches, |groups|, l)
      && CeilDiv(l, groups[g].blockSize) == CeilDiv(Depth(caches, g, max), groups[g].blockSize)
    }

    /** A further kind of full attention keeps the blocks of its first lookup.
        They are those of the hit exactly when the groups share that block. */
    lemma ExtraFullGroupExactIff(g: nat, max: nat, hit: nat)
      requires Valid() && 0 < g < |groups| && groups[g].isFull && IsGreatestCommon(caches, |groups|, max, hit)
      ensures caches.blocks(g, Depth(caches, g, max)) == caches.blocks(g, hit) <==> SharedLastBlock(g, max)
    {
      hide Depth, CeilDiv;
      var depth := Depth(caches, g, max);
      DepthIs(g, max);
      assert Common(caches, g + 1, hit) && caches.accepts(g, hit) && caches.accepts(g, depth);
      assert caches.blocks(g, hit) <= caches.blocks(g, depth);
      CeilDivMonotone(hit, depth, groups[g].blockSize);
      if SharedLastBlock(g, max) {
        var l: nat :| EndsInLastBlock(g, max, l);
        CeilDivMonotone(l, hit, groups[g].blockSize);
      } else {
        assert !EndsInLastBlock(g, max, hit);
      }
    }
  }

  lemma CeilDivMonotone(a: nat, b: nat, n: nat)
    requires a <= b && n > 0
    ensures CeilDiv(a, n) <= CeilDiv(b, n)
  {
    DivMod(a + n - 1, n);
    DivMod(b + n - 1, n);
    if CeilDiv(b, n) < CeilDiv(a, n) {
      MulMonotone(CeilDiv(b, n) + 1, CeilDiv(a, n), n);
      MulAdd(CeilDiv(b, n), 1, n);
    }
  }

  /** Groups of blocks of one token that hold the first 4, the first 3 and the
      first 1 of them. */
  function ThreeCaches(): Caches {
    Caches((g, l) => l <= (if g == 0 then 4 else if g == 1 then 3 else 1), (g, l) => Numbers(l), (g, max) => 0)
  }

  function Numbers(n: nat): (r: seq<nat>)
    ensures |r| == n
  {
    seq(n, i => i)
  }

  /** Two kinds of full attention, holding 4 and 3 blocks, and a third group
      that holds no more than 1: the hit is 1 block, which every group accepts,
      and the second group hands out its 3. */
  method ExtraFullGroupExample() returns (c: HybridCoordinator, hit: nat, blocks: seq<seq<nat>>, uncached: nat)
    ensures c.Valid() && c.NoEagle() && |c.groups| == 3 && c.groups[1].isFull && !c.SharedLastBlock(1, 4)
    ensures hit == 1 && uncached == 3 && |blocks| == 3
    ensures blocks[0] == c.caches.blocks(0, 1) && blocks[1] == c.caches.blocks(1, 3) && blocks[2] == c.caches.blocks(2, 1)
  {
    hide Greatest, HybridCoordinator.SharedLastBlock;
    var full, other := SpecGroup(true, false, 1, false, 0), SpecGroup(false, false, 1, false, 0);
    c := new HybridCoordinator([full, full, other], ThreeCaches(), 1);
    ThreeFit(c);
    ThreeDepths();
    hit, blocks, uncached := c.FindLongestCacheHit(4, false);
    assert c.caches.accepts(2, hit);
    assert Common(c.caches, 3, 1);
    assert |c.caches.blocks(1, 3)| == 3 && |c.caches.blocks(1, 1)| == 1;
  }

  lemma ThreeFit(c: HybridCoordinator)
    requires c.caches == ThreeCaches() && c.alignment == 1
    requires var full, other := SpecGroup(true, false, 1, false, 0), SpecGroup(false, false, 1, false, 0);
             c.groups == [full, full, other]
    ensures c.Valid()
  {
    forall l: nat ensures CeilDiv(l, 1) == l && l % 1 == 0 {
      DivMod(l, 1);
    }
    forall l: nat, k: nat | k <= l ensures Numbers(k) <= Numbers(l) {}
  }

  lemma ThreeDepths()
    ensures Greatest(ThreeCaches(), 0, 4) == 4 && Depth(ThreeCaches(), 1, 4) == 3
  {
    var caches := ThreeCaches();
    assert Depth(caches, 0, 4) == 4;
    assert Greatest(caches, 1, 4) == 3 by {
      assert !caches.accepts(1, 4) && caches.accepts(1, 3);
    }
  }
}
