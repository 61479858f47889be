module Chnroute {
  // The China route set: CIDR lines become ranges, ranges are sorted and merged,
  // membership is a binary search, and the merged set prints back as CIDR blocks.

  import opened Options
  import opened Words
  import opened Cidr

  datatype Range = Range(start: uint32, end: uint32) {
    predicate Has(x: int) {
      start <= x <= end
    }
  }

  ghost predicate InRanges(ranges: seq<Range>, x: int) {
    exists i :: 0 <= i < |ranges| && ranges[i].Has(x)
  }

  predicate WellFormed(ranges: seq<Range>) {
    forall i :: 0 <= i < |ranges| ==> ranges[i].start <= ranges[i].end
  }

  predicate SortedByStart(ranges: seq<Range>) {
    forall i, j :: 0 <= i < j < |ranges| ==> ranges[i].start <= ranges[j].start
  }

  /** Sorted, pairwise disjoint, and with a gap between any two neighbours. */
  predicate Merged(ranges: seq<Range>) {
    && WellFormed(ranges)
    && forall i, j :: 0 <= i < j < |ranges| ==> ranges[i].end + 1 < ranges[j].start
  }

  lemma {:induction false} SameElementsSameUnion(a: seq<Range>, b: seq<Range>, x: int)
    requires multiset(a) == multiset(b)
    ensures InRanges(a, x) <==> InRanges(b, x)
  {
    if InRanges(a, x) {
      var i :| 0 <= i < |a| && a[i].Has(x);
      assert a[i] in multiset(b);
    }
    if InRanges(b, x) {
      var i :| 0 <= i < |b| && b[i].Has(x);
      assert b[i] in multiset(a);
    }
  }

  // ---------- Sorting and merging ----------

  /** Stands for `sort.Slice` by start; the merge relies on nothing but these two facts. */
  method SortByStart(raw: seq<Range>) returns (sorted: seq<Range>)
    ensures SortedByStart(sorted)
    ensures multiset(sorted) == multiset(raw)
  {
    sorted := [];
    for i := 0 to |raw|
      invariant SortedByStart(sorted)
      invariant multiset(sorted) == multiset(raw[..i])
    {
      assert raw[..i + 1] == raw[..i] + [raw[i]];
      sorted := InsertByStart(sorted, raw[i]);
    }
    assert raw[..|raw|] == raw;
  }

  lemma {:induction false} InsertedSorted(sorted: seq<Range>, r: Range, k: nat)
    requires SortedByStart(sorted) && k <= |sorted|
    requires k == 0 || sorted[k - 1].start <= r.start
    requires forall j :: k <= j < |sorted| ==> r.start <= sorted[j].start
    ensures SortedByStart(sorted[..k] + [r] + sorted[k..])
  {
    assert forall j :: 0 <= j < k ==> sorted[j].start <= r.start;
    var out := sorted[..k] + [r] + sorted[k..];
    forall i, j | 0 <= i < j < |out|
      ensures out[i].start <= out[j].start
    {
      assert out[i] == if i < k then sorted[i] else if i == k then r else sorted[i - 1];
      assert out[j] == if j < k then sorted[j] else if j == k then r else sorted[j - 1];
    }
  }

  lemma {:induction false} InsertedElements(sorted: seq<Range>, r: Range, k: nat)
    requires k <= |sorted|
    ensures multiset(sorted[..k] + [r] + sorted[k..]) == multiset(sorted) + multiset{r}
  {
    assert sorted == sorted[..k] + sorted[k..];
  }

  method InsertByStart(sorted: seq<Range>, r: Range) returns (out: seq<Range>)
    requires SortedByStart(sorted)
    ensures SortedByStart(out)
    ensures multiset(out) == multiset(sorted) + multiset{r}
  {
    var k := |sorted|;
    while k > 0 && sorted[k - 1].start > r.start
      invariant 0 <= k <= |sorted|
      invariant forall j :: k <= j < |sorted| ==> sorted[j].start > r.start
    {
      k := k - 1;
    }
    out := sorted[..k] + [r] + sorted[k..];
    InsertedSorted(sorted, r, k);
    InsertedElements(sorted, r, k);
  }

  method MergeSorted(sorted: seq<Range>) returns (merged: seq<Range>)
    requires sorted != [] && SortedByStart(sorted) && WellFormed(sorted)
    ensures Merged(merged) && merged != []
    ensures forall x: int :: InRanges(merged, x) <==> InRanges(sorted, x)
  {
    merged := sorted[..1];
    for i := 1 to |sorted|
      invariant merged != [] && Merged(merged)
      invariant forall j :: 0 <= j < |merged| ==> merged[j].start <= sorted[i - 1].start
      invariant forall x: int :: InRanges(merged, x) <==> InRanges(sorted[..i], x)
    {
      var r := sorted[i];
      var lastAt := |merged| - 1;
      var last := merged[lastAt];
      ghost var before := merged;
      assert last.start <= r.start;
      if r.start == 0 || last.end >= r.start - 1 {
        if r.end > last.end {
          merged := merged[lastAt := Range(last.start, r.end)];
        }
      } else {
        merged := merged + [r];
      }
      forall x: int
        ensures InRanges(merged, x) <==> InRanges(sorted[..i + 1], x)
      {
        AbsorbStep(before, merged, r, x);
        assert sorted[..i + 1] == sorted[..i] + [r];
        UnionSnoc(sorted[..i], r, x);
      }
    }
    assert sorted[..|sorted|] == sorted;
  }

  lemma {:induction false} UnionSnoc(ranges: seq<Range>, r: Range, x: int)
    ensures InRanges(ranges + [r], x) <==> InRanges(ranges, x) || r.Has(x)
  {
    var longer := ranges + [r];
    if InRanges(ranges, x) {
      var i :| 0 <= i < |ranges| && ranges[i].Has(x);
      assert longer[i].Has(x);
    }
    if r.Has(x) {
      assert longer[|ranges|].Has(x);
    }
  }

  /** One round of the merge adds exactly the new range to the union. */
  lemma {:induction false} AbsorbStep(before: seq<Range>, after: seq<Range>, r: Range, x: int)
    requires before != [] && r.start <= r.end
    requires var last := before[|before| - 1];
             && last.start <= r.start && last.start <= last.end
             && after == if r.start == 0 || last.end >= r.start - 1
                         then (if r.end > last.end then before[|before| - 1 := Range(last.start, r.end)] else before)
                         else before + [r]
    ensures InRanges(after, x) <==> InRanges(before, x) || r.Has(x)
  {
    var n := |before| - 1;
    var init, last, final := before[..n], before[n], after[|after| - 1];
    assert before == init + [last];
    UnionSnoc(init, last, x);
    if after == before + [r] {
      UnionSnoc(before, r, x);
    } else {
      assert after == init + [final];
      UnionSnoc(init, final, x);
    }
  }

  /** The loader's tail: nothing to load is an error, anything else sorts and merges. */
  method Load(raw: seq<Range>) returns (routes: Option<seq<Range>>)
    requires WellFormed(raw)
    ensures routes.None? <==> raw == []
    ensures routes.Some? ==> Merged(routes.value) && routes.value != []
    ensures routes.Some? ==> forall x: int :: InRanges(routes.value, x) <==> InRanges(raw, x)
  {
    if raw == [] {
      return None;
    }
    var sorted := SortByStart(raw);
    forall i | 0 <= i < |sorted|
      ensures sorted[i].start <= sorted[i].end
    {
      assert sorted[i] in multiset(raw);
    }
    assert |sorted| == |multiset(raw)|;
    var merged := MergeSorted(sorted);
    forall x: int
      ensures InRanges(merged, x) <==> InRanges(raw, x)
    {
      SameElementsSameUnion(sorted, raw, x);
    }
    return Some(merged);
  }

  // ---------- Membership ----------

  /** `Contains`: no set, or no IPv4 address, answers false; otherwise one binary search. */
  method Contains(routes: Option<seq<Range>>, ip: Option<uint32>) returns (found: bool)
    requires routes.Some? ==> Merged(routes.value)
    ensures found <==> routes.Some? && ip.Some? && InRanges(routes.value, ip.value)
  {
    if routes.None? || ip.None? {
      return false;
    }
    var ranges, n := routes.value, ip.value;
    var i, j := 0, |ranges|;
    while i < j
      invariant 0 <= i <= j <= |ranges|
      invariant forall k :: 0 <= k < i ==> ranges[k].start <= n
      invariant forall k :: j <= k < |ranges| ==> ranges[k].start > n
    {
      var h := (i + j) / 2;
      if ranges[h].start > n {
        j := h;
      } else {
        i := h + 1;
      }
    }
    found := i > 0 && n <= ranges[i - 1].end;
    if i > 0 && ranges[i - 1].Has(n) {
      assert InRanges(ranges, n);
    }
  }

  /** Loading any ranges and asking about any address answers membership in the ranges as given. */
  method LoadThenContains(raw: seq<Range>, ip: uint32) returns (found: bool)
    requires WellFormed(raw)
    ensures found <==> InRanges(raw, ip)
  {
    var loaded := Load(raw);
    found := Contains(loaded, Some(ip));
  }

  // ---------- Printing the set back ----------

  function AllBlocks(ranges: seq<Range>): seq<Block> {
    if ranges == [] then [] else Greedy(ranges[0].start, ranges[0].end) + AllBlocks(ranges[1..])
  }

  lemma {:induction false} AppendNext(ranges: seq<Range>, i: nat, before: seq<Block>, head: seq<Block>)
    requires i < |ranges|
    requires head == Greedy(ranges[i].start, ranges[i].end)
    ensures before + AllBlocks(ranges[i..]) == before + head + AllBlocks(ranges[i + 1..])
  {
    assert ranges[i..][1..] == ranges[i + 1..];
    assert AllBlocks(ranges[i..]) == head + AllBlocks(ranges[i + 1..]);
  }

  method CIDRs(routes: Option<seq<Range>>) returns (out: seq<Block>)
    ensures out == if routes.None? then [] else AllBlocks(routes.value)
  {
    out := [];
    if routes.None? {
      return;
    }
    var ranges := routes.value;
    for i := 0 to |ranges|
      invariant out + AllBlocks(ranges[i..]) == AllBlocks(ranges)
    {
      ghost var before := out;
      out := AppendRangeCIDRs(out, ranges[i].start, ranges[i].end);
      AppendNext(ranges, i, before, Greedy(ranges[i].start, ranges[i].end));
    }
    assert ranges[|ranges|..] == [];
    assert out + [] == out;
  }

  predicate OverflowsAtZero(ranges: seq<Range>) {
    ranges != [] && ranges[0].start == 0 && ranges[0].end >= TWO31 - 1
  }

  ghost predicate RepresentsExactly(blocks: seq<Block>, ranges: seq<Range>) {
    forall x: int :: CoveredBy(blocks, x) <==> InRanges(ranges, x)
  }

  /** Any aligned blocks whose union is the set. */
  ghost predicate SetCover(cover: set<Block>, ranges: seq<Range>) {
    && (forall b, x: int | b in cover && b.Covers(x) :: InRanges(ranges, x))
    && (forall b | b in cover :: b.Valid())
    && (forall x: int | InRanges(ranges, x) :: InSome(cover, x))
  }

  ghost predicate SmallestRepresentation(blocks: seq<Block>, ranges: seq<Range>) {
    && RepresentsExactly(blocks, ranges)
    && forall cover: set<Block> | SetCover(cover, ranges) :: |blocks| <= |cover|
  }

  lemma {:induction false} CoveredByConcat(a: seq<Block>, b: seq<Block>, x: int)
    ensures CoveredBy(a + b, x) <==> CoveredBy(a, x) || CoveredBy(b, x)
  {
    if CoveredBy(a, x) {
      var i :| 0 <= i < |a| && a[i].Covers(x);
      assert (a + b)[i].Covers(x);
    }
    if CoveredBy(b, x) {
      var i :| 0 <= i < |b| && b[i].Covers(x);
      assert (a + b)[|a| + i].Covers(x);
    }
  }

  lemma {:induction false} UnionCons(ranges: seq<Range>, x: int)
    requires ranges != []
    ensures InRanges(ranges, x) <==> ranges[0].Has(x) || InRanges(ranges[1..], x)
  {
    if InRanges(ranges[1..], x) {
      var i :| 0 <= i < |ranges[1..]| && ranges[1..][i].Has(x);
      assert ranges[i + 1].Has(x);
    }
    if InRanges(ranges, x) && !ranges[0].Has(x) {
      var i :| 0 <= i < |ranges| && ranges[i].Has(x);
      assert ranges[1..][i - 1].Has(x);
    }
  }

  lemma {:induction false} TailMerged(ranges: seq<Range>)
    requires Merged(ranges) && ranges != []
    ensures Merged(ranges[1..]) && !OverflowsAtZero(ranges[1..])
    ensures forall x: int :: InRanges(ranges[1..], x) ==> x > ranges[0].end + 1
  {
    var tail := ranges[1..];
    forall i, j | 0 <= i < j < |tail|
      ensures tail[i].end + 1 < tail[j].start
    {
      assert tail[i] == ranges[i + 1] && tail[j] == ranges[j + 1];
    }
    forall i | 0 <= i < |tail|
      ensures tail[i].start <= tail[i].end && tail[i].start > ranges[0].end + 1
    {
      assert tail[i] == ranges[i + 1];
    }
  }

  lemma {:induction false} AllBlocksExact(ranges: seq<Range>, x: int)
    requires Merged(ranges) && !OverflowsAtZero(ranges)
    ensures CoveredBy(AllBlocks(ranges), x) <==> InRanges(ranges, x)
  {
    if ranges != [] {
      var head, tail := Greedy(ranges[0].start, ranges[0].end), ranges[1..];
      TailMerged(ranges);
      AllBlocksExact(tail, x);
      GreedyExact(ranges[0].start, ranges[0].end);
      assert CoveredBy(head, x) <==> ranges[0].Has(x);
      CoveredByConcat(head, AllBlocks(tail), x);
      UnionCons(ranges, x);
    }
  }

  /** A block inside the union cannot bridge the gap after the first range. */
  lemma {:induction false} BlockOnOneSide(ranges: seq<Range>, b: Block)
    requires Merged(ranges) && ranges != [] && b.Valid()
    requires forall x: int | b.Covers(x) :: InRanges(ranges, x)
    ensures ranges[0].start <= b.base
    ensures b.base <= ranges[0].end ==> b.End() <= ranges[0].end + 1
    ensures b.base > ranges[0].end ==> forall x: int | b.Covers(x) :: InRanges(ranges[1..], x)
  {
    var gap := ranges[0].end + 1;
    TailMerged(ranges);
    assert b.Covers(b.base);
    UnionCons(ranges, b.base);
    assert b.Covers(gap) ==> InRanges(ranges, gap);
    UnionCons(ranges, gap);
    forall x: int | b.base > ranges[0].end && b.Covers(x)
      ensures InRanges(ranges[1..], x)
    {
      UnionCons(ranges, x);
    }
  }

  /** Any cover of the set splits into a cover of the first range and one of the others. */
  lemma {:induction false} SplitCover(ranges: seq<Range>, cover: set<Block>, head: set<Block>, tail: set<Block>)
    requires Merged(ranges) && ranges != [] && SetCover(cover, ranges)
    requires head == (set b | b in cover && b.base <= ranges[0].end)
    requires tail == cover - head
    ensures Cover(head, ranges[0].start, ranges[0].end + 1)
    ensures SetCover(tail, ranges[1..])
  {
    forall b | b in cover
      ensures ranges[0].start <= b.base
      ensures b in head ==> b.End() <= ranges[0].end + 1
      ensures b in tail ==> forall x: int | b.Covers(x) :: InRanges(ranges[1..], x)
    {
      BlockOnOneSide(ranges, b);
    }
    TailMerged(ranges);
    forall x: int | ranges[0].start <= x < ranges[0].end + 1
      ensures InSome(head, x)
    {
      UnionCons(ranges, x);
      assert InSome(cover, x);
      var b :| b in cover && b.Covers(x);
      assert b in head;
    }
    forall x: int | InRanges(ranges[1..], x)
      ensures InSome(tail, x)
    {
      UnionCons(ranges, x);
      assert InSome(cover, x);
      var b :| b in cover && b.Covers(x);
      assert b in tail;
    }
  }

  lemma {:induction false} AllBlocksMinimal(ranges: seq<Range>, cover: set<Block>)
    requires Merged(ranges) && !OverflowsAtZero(ranges) && SetCover(cover, ranges)
    ensures |AllBlocks(ranges)| <= |cover|
  {
    if ranges != [] {
      var head := set b | b in cover && b.base <= ranges[0].end;
      var tail := cover - head;
      SplitCover(ranges, cover, head, tail);
      TailMerged(ranges);
      GreedyMinimal(ranges[0].start, ranges[0].end, head);
      AllBlocksMinimal(ranges[1..], tail);
      assert cover == head + tail;
    }
  }

  lemma {:induction false} WholeSpaceIsAlone(ranges: seq<Range>)
    requires Merged(ranges) && ranges != [] && ranges[0].end == TWO32 - 1
    ensures |ranges| == 1
  {
    assert |ranges| > 1 ==> ranges[0].end + 1 < ranges[1].start;
  }

  /** Blocks of the whole-space range: exact, yet one block would do. */
  lemma {:induction false} WholeSpaceTooMany(ranges: seq<Range>)
    requires Merged(ranges) && OverflowsAtZero(ranges) && ranges[0].end == TWO32 - 1
    ensures !SmallestRepresentation(AllBlocks(ranges), ranges)
  {
    WholeSpaceIsAlone(ranges);
    var b := Block(0, 32);
    Pow2Landmarks();
    ZeroIsAligned(32);
    GreedyWholeSpace(ranges[0].end);
    assert AllBlocks(ranges[1..]) == [];
    var whole := {b};
    forall x: int
      ensures b.Covers(x) <==> InRanges(ranges, x)
    {
      UnionCons(ranges, x);
    }
    assert SetCover(whole, ranges) by {
      forall x: int | InRanges(ranges, x)
        ensures InSome(whole, x)
      {
        assert b in whole && b.Covers(x);
      }
    }
    assert |whole| == 1;
  }

  /** The /0 that overflow emits also covers the address right after the first range. */
  lemma {:induction false} OverflowNotExact(ranges: seq<Range>)
    requires Merged(ranges) && OverflowsAtZero(ranges) && ranges[0].end < TWO32 - 1
    ensures !RepresentsExactly(AllBlocks(ranges), ranges)
  {
    var gap := ranges[0].end + 1;
    GreedyOverflow(ranges[0].end);
    Pow2Landmarks();
    var head := Greedy(ranges[0].start, ranges[0].end);
    assert head[0].Covers(gap);
    assert CoveredBy(head, gap);
    CoveredByConcat(head, AllBlocks(ranges[1..]), gap);
    TailMerged(ranges);
    UnionCons(ranges, gap);
  }

  /**
   The printed blocks represent the merged set exactly, with as few blocks as
   any exact aligned cover, if and only if the set does not begin with a range
   from address zero to at least the middle of the space.
   */
  lemma {:induction false} PrintedSetIsSmallestIff(ranges: seq<Range>)
    requires Merged(ranges)
    ensures SmallestRepresentation(AllBlocks(ranges), ranges) <==> !OverflowsAtZero(ranges)
  {
    if !OverflowsAtZero(ranges) {
      forall x: int
        ensures CoveredBy(AllBlocks(ranges), x) <==> InRanges(ranges, x)
      {
        AllBlocksExact(ranges, x);
      }
      forall cover: set<Block> | SetCover(cover, ranges)
        ensures |AllBlocks(ranges)| <= |cover|
      {
        AllBlocksMinimal(ranges, cover);
      }
    } else if ranges[0].end == TWO32 - 1 {
      WholeSpaceTooMany(ranges);
    } else {
      OverflowNotExact(ranges);
    }
  }
}
