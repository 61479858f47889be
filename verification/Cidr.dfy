module Cidr {
  // Greedy decomposition of an inclusive IPv4 range into CIDR blocks
  // (`appendRangeCIDRs`), and what an exact aligned cover needs at least.

  import opened Words
  import opened Sizes

  /** The block `base/(32 - bits)`. */
  datatype Block = Block(base: nat, bits: nat) {
    predicate Covers(x: int) {
      base <= x < base + Pow2(bits)
    }

    function End(): nat {
      base + Pow2(bits)
    }

    predicate Valid() {
      bits <= 32 && End() <= TWO32 && Aligned(base, bits)
    }
  }

  // ---------- The block size picked at each round ----------

  /** The largest n <= maxBits with 2^n <= remaining (0 when there is none). */
  function FitBits(remaining: nat, maxBits: nat): (n: nat)
    ensures n <= maxBits
    ensures remaining > 0 ==> Pow2(n) <= remaining
    ensures n < maxBits ==> remaining < Pow2(n + 1)
  {
    if maxBits == 0 || Pow2(maxBits) <= remaining then maxBits else FitBits(remaining, maxBits - 1)
  }

  lemma {:induction false} FitBitsUnique(remaining: nat, maxBits: nat, n: nat)
    requires n <= maxBits
    requires Pow2(n) <= remaining
    requires n < maxBits ==> remaining < Pow2(n + 1)
    ensures FitBits(remaining, maxBits) == n
  {
    var f := FitBits(remaining, maxBits);
    if f < n {
      Pow2Monotone(f + 1, n);
    } else if n < f {
      Pow2Monotone(n + 1, f);
    }
  }

  /**
   What the inner loop computes, wrap-around included: a full-space request
   has a wrapped-to-zero length, and a shift past the word compares as zero.
   */
  function NBits(start: uint32, end: uint32): nat {
    var remaining := Add(Sub(end, start), 1);
    if remaining == 0 then 0
    else if start == 0 && remaining >= TWO31 then 32
    else FitBits(remaining, if start == 0 then 31 else TrailingZeros(start))
  }

  method LargestBlockBits(start: uint32, end: uint32) returns (nBits: nat)
    requires start <= end
    ensures nBits == NBits(start, end)
  {
    var maxBits := TrailingZeros(start);
    if start == 0 {
      maxBits := 32;
    } else {
      TrailingZerosBelowWidth(start);
    }
    var remaining := Add(Sub(end, start), 1);
    Pow2Landmarks();
    var n: nat := 0;
    while OneShl(n) <= remaining && n <= maxBits
      invariant n <= maxBits + 1
      invariant 0 < n <= 32 ==> Pow2(n - 1) <= remaining
      invariant n == 33 ==> TWO31 <= remaining
      decreases maxBits + 1 - n
    {
      n := n + 1;
    }
    if n == 0 {
      nBits := 0;
    } else {
      nBits := n - 1;
      if nBits < 32 {
        FitBitsUnique(remaining, if start == 0 then 31 else maxBits, nBits);
        assert start == 0 && nBits == 31 ==> false;
      }
    }
  }

  // ---------- The decomposition ----------

  lemma RemainingLength(start: uint32, end: uint32)
    requires start <= end
    ensures Add(Sub(end, start), 1) == if start == 0 && end == TWO32 - 1 then 0 else end - start + 1
  {
    assert Sub(end, start) == end - start;
  }

  /** Outside the whole-space overflow a round emits a valid block inside the range. */
  lemma RoundFits(start: uint32, end: uint32)
    requires start <= end && !(start == 0 && end >= TWO31 - 1)
    ensures Block(start, NBits(start, end)).Valid()
    ensures NBits(start, end) < 32
    ensures start + Pow2(NBits(start, end)) <= end + 1
  {
    var n := NBits(start, end);
    RemainingLength(start, end);
    Pow2Landmarks();
    if start > 0 {
      TrailingZerosBelowWidth(start);
      TrailingZerosIsAlignment(start, n);
    } else {
      ZeroIsAligned(n);
    }
  }

  /** ... and no aligned block starting there and staying inside is larger. */
  lemma RoundLargest(start: uint32, end: uint32, j: nat)
    requires start <= end && !(start == 0 && end >= TWO31 - 1)
    requires Aligned(start, j) && start + Pow2(j) <= end + 1
    ensures j <= NBits(start, end)
  {
    var n := NBits(start, end);
    RemainingLength(start, end);
    Pow2Landmarks();
    if start > 0 {
      TrailingZerosIsAlignment(start, j);
    } else if j > 30 {
      Pow2Monotone(31, j);
    }
    if n < j {
      Pow2Monotone(n + 1, j);
    }
  }

  function Greedy(start: uint32, end: uint32): (blocks: seq<Block>)
    decreases TWO32 - start
  {
    if start > end then []
    else
      var n := NBits(start, end);
      var next := Add(start, OneShl(n));
      var block := Block(start, n);
      if next == 0 then [block]
      else
        assert next > start by { RoundAdvances(start, end); }
        [block] + Greedy(next, end)
  }

  lemma RoundAdvances(start: uint32, end: uint32)
    requires start <= end
    ensures var next := Add(start, OneShl(NBits(start, end)));
            next == 0 || next > start
  {
    if !(start == 0 && end >= TWO31 - 1) {
      RoundFits(start, end);
    }
  }

  /** `appendRangeCIDRs`. */
  method AppendRangeCIDRs(dst: seq<Block>, start: uint32, end: uint32) returns (out: seq<Block>)
    ensures out == dst + Greedy(start, end)
  {
    out := dst;
    var s: uint32 := start;
    while s <= end
      invariant out + Greedy(s, end) == dst + Greedy(start, end)
      decreases TWO32 - s
    {
      var nBits := LargestBlockBits(s, end);
      RoundAdvances(s, end);
      ghost var rest := Greedy(s, end)[1..];
      assert out + Greedy(s, end) == (out + [Block(s, nBits)]) + rest;
      out := out + [Block(s, nBits)];
      s := Add(s, OneShl(nBits));
      if s == 0 {
        assert out + [] == out;
        return;
      }
    }
  }

  // ---------- Exactness ----------

  /** The blocks follow one another without gap or overlap from `from` up to `to`. */
  predicate Tiles(blocks: seq<Block>, from: nat, to: nat) {
    if blocks == [] then from == to
    else blocks[0].Valid() && blocks[0].base == from && blocks[0].End() <= to && Tiles(blocks[1..], blocks[0].End(), to)
  }

  ghost predicate Disjoint(blocks: seq<Block>) {
    forall i, j, x: int | 0 <= i < j < |blocks| && blocks[i].Covers(x) :: !blocks[j].Covers(x)
  }

  ghost predicate CoveredBy(blocks: seq<Block>, x: int) {
    exists i :: 0 <= i < |blocks| && blocks[i].Covers(x)
  }

  ghost predicate CoversExactly(blocks: seq<Block>, start: int, end: int) {
    forall x: int :: CoveredBy(blocks, x) <==> start <= x <= end
  }

  lemma {:induction false} TilesCovers(blocks: seq<Block>, from: nat, to: nat, x: int)
    requires Tiles(blocks, from, to)
    ensures from <= to
    ensures CoveredBy(blocks, x) <==> from <= x < to
  {
    if blocks != [] {
      TilesCovers(blocks[1..], blocks[0].End(), to, x);
      if blocks[0].Covers(x) {
      } else if CoveredBy(blocks[1..], x) {
        var i :| 0 <= i < |blocks[1..]| && blocks[1..][i].Covers(x);
        assert blocks[i + 1].Covers(x);
      } else {
        forall i | 0 <= i < |blocks|
          ensures !blocks[i].Covers(x)
        {
          if i > 0 {
            assert blocks[i] == blocks[1..][i - 1];
          }
        }
      }
    }
  }

  lemma {:induction false} TilesDisjoint(blocks: seq<Block>, from: nat, to: nat)
    requires Tiles(blocks, from, to)
    ensures Disjoint(blocks)
  {
    if blocks != [] {
      TilesDisjoint(blocks[1..], blocks[0].End(), to);
      forall i, j, x: int | 0 <= i < j < |blocks| && blocks[i].Covers(x)
        ensures !blocks[j].Covers(x)
      {
        assert blocks[j] == blocks[1..][j - 1];
        TilesCovers(blocks[1..], blocks[0].End(), to, x);
        if i > 0 {
          assert blocks[i] == blocks[1..][i - 1];
        } else {
          assert !CoveredBy(blocks[1..], x);
        }
      }
    }
  }

  lemma {:induction false} TilesValid(blocks: seq<Block>, from: nat, to: nat, i: nat)
    requires Tiles(blocks, from, to) && i < |blocks|
    ensures blocks[i].Valid()
  {
    if i > 0 {
      assert blocks[i] == blocks[1..][i - 1];
      TilesValid(blocks[1..], blocks[0].End(), to, i - 1);
    }
  }

  lemma {:induction false} GreedyTiles(start: uint32, end: uint32)
    requires start <= end && !(start == 0 && end >= TWO31 - 1)
    ensures Tiles(Greedy(start, end), start, end + 1)
    decreases TWO32 - start
  {
    RoundFits(start, end);
    var n := NBits(start, end);
    var next := Add(start, OneShl(n));
    var blocks := Greedy(start, end);
    if next != 0 {
      assert next == start + Pow2(n);
      if next <= end {
        GreedyTiles(next, end);
      }
      assert blocks[1..] == Greedy(next, end);
    } else {
      assert blocks[1..] == [];
    }
  }

  /** Every block is aligned and inside the address space, no two overlap, and their union is the range. */
  lemma GreedyExact(start: uint32, end: uint32)
    requires start <= end && !(start == 0 && end >= TWO31 - 1)
    ensures forall i :: 0 <= i < |Greedy(start, end)| ==> Greedy(start, end)[i].Valid()
    ensures Disjoint(Greedy(start, end))
    ensures CoversExactly(Greedy(start, end), start, end)
  {
    GreedyTiles(start, end);
    var blocks := Greedy(start, end);
    forall i | 0 <= i < |blocks|
      ensures blocks[i].Valid()
    {
      TilesValid(blocks, start, end + 1, i);
    }
    TilesDisjoint(blocks, start, end + 1);
    forall x: int
      ensures CoveredBy(blocks, x) <==> start <= x <= end
    {
      TilesCovers(blocks, start, end + 1, x);
    }
  }

  /** From a power of two to the top, every round doubles the start. */
  lemma {:induction false} GreedyFromPower(k: nat, start: uint32, end: uint32)
    requires k <= 31 && start as int == Pow2(k) && end == TWO32 - 1
    ensures |Greedy(start, end)| == 32 - k
    decreases 32 - k
  {
    Pow2Landmarks();
    TrailingZerosOfPower(k, start);
    RemainingLength(start, end);
    Pow2Monotone(k, 31);
    assert NBits(start, end) == k;
    if k < 31 {
      Pow2Monotone(k + 1, 31);
      GreedyFromPower(k + 1, Add(start, OneShl(k)), end);
    }
  }

  /** The one input whose length wraps to zero is split as /32 plus the rest: still exact, in 33 blocks. */
  lemma {:induction false} GreedyWholeSpace(end: uint32)
    requires end == TWO32 - 1
    ensures Tiles(Greedy(0, end), 0, end + 1)
    ensures |Greedy(0, end)| == 33
  {
    var blocks := Greedy(0, end);
    var one: uint32 := 1;
    RemainingLength(0, end);
    assert blocks == [Block(0, 0)] + Greedy(one, end);
    GreedyTiles(one, end);
    GreedyFromPower(0, one, end);
    assert blocks[1..] == Greedy(one, end);
  }

  /** From address zero, half the space or more but not all of it: a single /0 comes out. */
  lemma GreedyOverflow(end: uint32)
    requires TWO31 - 1 <= end < TWO32 - 1
    ensures Greedy(0, end) == [Block(0, 32)]
    ensures !CoversExactly(Greedy(0, end), 0, end)
  {
    var blocks := Greedy(0, end);
    assert NBits(0, end) == 32;
    assert blocks == [Block(0, 32)];
    Pow2Landmarks();
    assert blocks[0].Covers(end + 1);
    assert CoveredBy(blocks, end + 1);
  }

  /** Exactness holds on every range except from zero to at least half of, but not all of, the space. */
  lemma GreedyExactIff(start: uint32, end: uint32)
    requires start <= end
    ensures CoversExactly(Greedy(start, end), start, end) <==> !(start == 0 && TWO31 - 1 <= end < TWO32 - 1)
  {
    if !(start == 0 && end >= TWO31 - 1) {
      GreedyExact(start, end);
    } else if end == TWO32 - 1 {
      GreedyWholeSpace(end);
      forall x: int
        ensures CoveredBy(Greedy(start, end), x) <==> start <= x <= end
      {
        TilesCovers(Greedy(start, end), 0, end + 1, x);
      }
    } else {
      GreedyOverflow(end);
    }
  }

  // ---------- Minimality ----------

  /** A set of aligned blocks, overlapping or not, whose union is [from, to). */
  ghost predicate Cover(blocks: set<Block>, from: int, to: int) {
    && (forall b | b in blocks :: b.Valid() && from <= b.base && b.End() <= to)
    && (forall x: int | from <= x < to :: InSome(blocks, x))
  }

  ghost predicate InSome(blocks: set<Block>, x: int) {
    exists b :: b in blocks && b.Covers(x)
  }

  /** An aligned block that starts inside an aligned block and is no larger stays inside it. */
  lemma NestedOrApart(outer: Block, inner: Block)
    requires outer.Valid() && inner.Valid()
    requires outer.Covers(inner.base) && inner.bits <= outer.bits
    ensures inner.End() <= outer.End()
  {
    AlignedStep(outer.base, outer.bits);
    AlignedFiner(outer.End(), inner.bits, outer.bits);
    AlignedGap(inner.base, outer.End(), inner.bits);
  }

  /** Whatever begins inside the greedy block of a range ends inside it too. */
  lemma NoStraddle(start: uint32, end: uint32, b: Block)
    requires start <= end && !(start == 0 && end >= TWO31 - 1)
    requires b.Valid() && start <= b.base && b.End() <= end + 1
    requires b.base < start + Pow2(NBits(start, end))
    ensures b.End() <= start + Pow2(NBits(start, end))
  {
    RoundFits(start, end);
    var n := NBits(start, end);
    if b.bits <= n {
      NestedOrApart(Block(start, n), b);
    } else {
      AlignedFiner(b.base, n, b.bits);
      if b.base > start {
        AlignedGap(start, b.base, n);
      } else {
        RoundLargest(start, end, b.bits);
      }
    }
  }

  function After(cover: set<Block>, cut: int): set<Block> {
    set b | b in cover && b.base >= cut
  }

  /** Dropping what lies in the greedy block leaves a cover of the rest, with a block to spare. */
  lemma CoverOfRest(start: uint32, end: uint32, cover: set<Block>)
    requires start <= end && !(start == 0 && end >= TWO31 - 1)
    requires Cover(cover, start, end + 1)
    ensures var cut := start + Pow2(NBits(start, end));
            Cover(After(cover, cut), cut, end + 1) && |After(cover, cut)| < |cover|
  {
    var cut := start + Pow2(NBits(start, end));
    var rest := After(cover, cut);
    assert InSome(cover, start);
    var first :| first in cover && first.Covers(start);
    assert first !in rest;
    SubsetSize(rest, cover - {first});
    forall x: int | cut <= x < end + 1
      ensures InSome(rest, x)
    {
      assert InSome(cover, x);
      var b :| b in cover && b.Covers(x);
      if b.base < cut {
        NoStraddle(start, end, b);
      }
      assert b in rest;
    }
  }

  lemma GreedyLength(start: uint32, end: uint32)
    requires start <= end && !(start == 0 && end >= TWO31 - 1)
    ensures var cut := start + Pow2(NBits(start, end));
            |Greedy(start, end)| == if cut <= end then 1 + |Greedy(cut, end)| else 1
  {
    RoundFits(start, end);
  }

  /** No exact aligned cover of the range has fewer blocks than the greedy one. */
  lemma {:induction false} GreedyMinimal(start: uint32, end: uint32, cover: set<Block>)
    requires start <= end && !(start == 0 && end >= TWO31 - 1)
    requires Cover(cover, start, end + 1)
    ensures |Greedy(start, end)| <= |cover|
    decreases TWO32 - start
  {
    CoverOfRest(start, end, cover);
    GreedyLength(start, end);
    var cut := start + Pow2(NBits(start, end));
    if cut <= end {
      GreedyMinimal(cut, end, After(cover, cut));
    }
  }

  ghost predicate MinimalCover(blocks: seq<Block>, start: uint32, end: uint32) {
    && CoversExactly(blocks, start, end)
    && forall cover: set<Block> | Cover(cover, start, end + 1) :: |blocks| <= |cover|
  }

  lemma {:induction false} WholeSpaceNotMinimal(end: uint32)
    requires end == TWO32 - 1
    ensures !MinimalCover(Greedy(0, end), 0, end)
  {
    GreedyWholeSpace(end);
    var b := Block(0, 32);
    WholeIsCover(b, end);
    assert |{b}| == 1;
  }

  lemma {:induction false} WholeIsCover(b: Block, end: uint32)
    requires b == Block(0, 32) && end == TWO32 - 1
    ensures Cover({b}, 0, end + 1)
  {
    Pow2Landmarks();
    ZeroIsAligned(32);
    assert forall x: int | 0 <= x < end + 1 :: b.Covers(x);
  }

  /** The greedy answer is exact and smallest precisely off the ranges from zero to at least half the space. */
  lemma GreedyMinimalIff(start: uint32, end: uint32)
    requires start <= end
    ensures MinimalCover(Greedy(start, end), start, end) <==> !(start == 0 && end >= TWO31 - 1)
  {
    if !(start == 0 && end >= TWO31 - 1) {
      GreedyExact(start, end);
      forall cover: set<Block> | Cover(cover, start, end + 1)
        ensures |Greedy(start, end)| <= |cover|
      {
        GreedyMinimal(start, end, cover);
      }
    } else if end == TWO32 - 1 {
      WholeSpaceNotMinimal(end);
    } else {
      GreedyOverflow(end);
    }
  }
}
