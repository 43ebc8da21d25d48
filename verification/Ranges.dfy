/** Sequences of separated address ranges and their joint minimal split into blocks. */
module Ranges {
  import opened Cidr

  datatype Range = Range(lo: Address, hi: Address)

  ghost predicate InRange(r: Range, a: int) {
    r.lo <= a <= r.hi
  }

  ghost predicate InRanges(ranges: seq<Range>, a: int) {
    exists r <- ranges :: InRange(r, a)
  }

  /** Non-empty ranges in ascending order with at least one address between neighbours. */
  ghost predicate Separated(ranges: seq<Range>) {
    && (forall r <- ranges :: r.lo <= r.hi)
    && (forall i, j :: 0 <= i < j < |ranges| ==> ranges[i].hi + 1 < ranges[j].lo)
  }

  ghost function SplitAll(ranges: seq<Range>): seq<Block> {
    if ranges == [] then [] else SplitAll(ranges[..|ranges| - 1]) + Split(Last(ranges).lo, Last(ranges).hi)
  }

  ghost function Last<T>(xs: seq<T>): T
    requires xs != []
  {
    xs[|xs| - 1]
  }

  lemma SplitAllSnoc(ranges: seq<Range>, r: Range)
    ensures SplitAll(ranges + [r]) == SplitAll(ranges) + Split(r.lo, r.hi)
  {
    assert (ranges + [r])[..|ranges|] == ranges;
  }

  lemma InRangesSnoc(ranges: seq<Range>, r: Range, a: int)
    ensures InRanges(ranges + [r], a) <==> InRanges(ranges, a) || InRange(r, a)
  {
    if InRanges(ranges, a) {
      var x :| x in ranges && InRange(x, a);
      assert x in ranges + [r];
    }
    if InRange(r, a) {
      assert r in ranges + [r];
    }
  }

  ghost predicate EndBy(blocks: seq<Block>, hi: int) {
    forall b <- blocks :: 0 <= b.prefix <= 32 && b.ip + Size(b) <= hi + 1
  }

  lemma SplitEndsBy(r: Range)
    requires r.lo <= r.hi
    ensures EndBy(Split(r.lo, r.hi), r.hi)
  {
    SplitExact(r.lo, r.hi);
    forall b <- Split(r.lo, r.hi)
      ensures b.ip + Size(b) <= r.hi + 1
    {
      assert Holds(b, b.ip + Size(b) - 1);
      assert Covers(Split(r.lo, r.hi), b.ip + Size(b) - 1);
    }
  }

  lemma AscendingConcat(xs: seq<Block>, ys: seq<Block>, mid: int)
    requires Ascending(xs) && Ascending(ys) && EndBy(xs, mid - 1)
    requires forall b <- ys :: mid <= b.ip
    ensures Ascending(xs + ys)
  {
    forall i, j | 0 <= i < j < |xs + ys|
      ensures Before((xs + ys)[i], (xs + ys)[j])
    {
      if j < |xs| {
        assert Before(xs[i], xs[j]);
      } else if i < |xs| {
        assert xs[i] in xs && ys[j - |xs|] in ys;
      } else {
        assert Before(ys[i - |xs|], ys[j - |xs|]);
      }
    }
  }

  lemma {:induction false} SplitAllAscending(ranges: seq<Range>)
    requires Separated(ranges)
    ensures AllAligned(SplitAll(ranges)) && Ascending(SplitAll(ranges))
    ensures ranges != [] ==> EndBy(SplitAll(ranges), Last(ranges).hi)
  {
    if ranges != [] {
      var front, last := ranges[..|ranges| - 1], Last(ranges);
      SplitAllAscending(front);
      SplitExact(last.lo, last.hi);
      SplitEndsBy(last);
      FrontEndsBy(ranges);
      hide Aligned, Covers, Before;
      AscendingConcat(SplitAll(front), Split(last.lo, last.hi), last.lo);
      EndByConcat(SplitAll(front), Split(last.lo, last.hi), last.lo - 1, last.hi);
    }
  }

  lemma FrontEndsBy(ranges: seq<Range>)
    requires Separated(ranges) && ranges != []
    requires var front := ranges[..|ranges| - 1]; front != [] ==> EndBy(SplitAll(front), Last(front).hi)
    ensures EndBy(SplitAll(ranges[..|ranges| - 1]), Last(ranges).lo - 1)
  {
  }

  lemma EndByConcat(xs: seq<Block>, ys: seq<Block>, mid: int, hi: int)
    requires EndBy(xs, mid) && EndBy(ys, hi) && mid <= hi
    ensures EndBy(xs + ys, hi)
  {
  }

  lemma {:induction false} SplitAllCovers(ranges: seq<Range>, a: int)
    requires Separated(ranges)
    ensures Covers(SplitAll(ranges), a) <==> InRanges(ranges, a)
  {
    if ranges != [] {
      var front, last := ranges[..|ranges| - 1], Last(ranges);
      SplitAllCovers(front, a);
      SplitExact(last.lo, last.hi);
      CoversConcat(SplitAll(front), Split(last.lo, last.hi), a);
      InRangesSnoc(front, last, a);
      assert ranges == front + [last];
    }
  }

  /** A set of aligned blocks whose union is exactly the union of the ranges. */
  ghost predicate ExactRangesCover(cover: set<Block>, ranges: seq<Range>) {
    && (forall b <- cover :: Aligned(b))
    && (forall a :: SetCovers(cover, a) <==> InRanges(ranges, a))
  }

  lemma GapUncovered(cover: set<Block>, ranges: seq<Range>, b: Block)
    requires Separated(ranges) && ranges != [] && ExactRangesCover(cover, ranges) && b in cover
    ensures !(b.ip < Last(ranges).lo <= b.ip + Size(b))
  {
    var gap := Last(ranges).lo - 1;
    if InRanges(ranges, gap) {
      var r :| r in ranges && InRange(r, gap);
      var i :| 0 <= i < |ranges| && ranges[i] == r;
    }
    assert !SetCovers(cover, gap);
    assert !Holds(b, gap);
  }

  /** A block of an exact cover cannot reach across the gap before the last range. */
  lemma GapSeparates(cover: set<Block>, ranges: seq<Range>, b: Block)
    requires Separated(ranges) && ranges != [] && ExactRangesCover(cover, ranges) && b in cover
    ensures b.ip + Size(b) < Last(ranges).lo || (Last(ranges).lo <= b.ip && b.ip + Size(b) <= Last(ranges).hi + 1)
  {
    var last := Last(ranges);
    if b.ip < last.lo <= b.ip + Size(b) {
      GapUncovered(cover, ranges, b);
      assert false;
    }
    assert Holds(b, b.ip + Size(b) - 1);
    assert SetCovers(cover, b.ip + Size(b) - 1);
  }

  /** No set of aligned blocks with the same union is smaller than the joint split. */
  lemma {:induction false} SplitAllMinimal(cover: set<Block>, ranges: seq<Range>)
    requires Separated(ranges) && ExactRangesCover(cover, ranges)
    ensures |SplitAll(ranges)| <= |cover|
    decreases |ranges|
  {
    if ranges != [] {
      var front, last := ranges[..|ranges| - 1], Last(ranges);
      assert ranges == front + [last];
      var tail := set b | b in cover && last.lo <= b.ip;
      var head := cover - tail;
      forall a
        ensures SetCovers(tail, a) <==> last.lo <= a <= last.hi
        ensures SetCovers(head, a) <==> InRanges(front, a)
      {
        PartsCover(cover, ranges, front, last, head, tail, a);
      }
      hide SetCovers, InRanges, Aligned, Split;
      SplitMinimal(tail, last.lo, last.hi);
      SplitAllMinimal(head, front);
      assert cover == head + tail;
    }
  }

  lemma PartsCover(cover: set<Block>, ranges: seq<Range>, front: seq<Range>, last: Range,
                   head: set<Block>, tail: set<Block>, a: int)
    requires Separated(ranges) && ExactRangesCover(cover, ranges) && ranges == front + [last]
    requires tail == (set b | b in cover && last.lo <= b.ip) && head == cover - tail
    ensures SetCovers(tail, a) <==> last.lo <= a <= last.hi
    ensures SetCovers(head, a) <==> InRanges(front, a)
  {
    InRangesSnoc(front, last, a);
    FrontBelow(ranges, front, last, a);
    assert SetCovers(cover, a) <==> InRanges(front, a) || InRange(last, a);
    if SetCovers(tail, a) {
      var b :| b in tail && Holds(b, a);
      GapSeparates(cover, ranges, b);
    }
    if SetCovers(head, a) {
      var b :| b in head && Holds(b, a);
      GapSeparates(cover, ranges, b);
      assert b in cover;
      assert SetCovers(cover, a);
    }
    if SetCovers(cover, a) {
      var b :| b in cover && Holds(b, a);
      GapSeparates(cover, ranges, b);
      assert b in head || b in tail;
    }
  }

  lemma FrontBelow(ranges: seq<Range>, front: seq<Range>, last: Range, a: int)
    requires Separated(ranges) && ranges == front + [last]
    ensures InRanges(front, a) ==> a < last.lo
  {
    if InRanges(front, a) {
      var r :| r in front && InRange(r, a);
      var i :| 0 <= i < |front| && front[i] == r;
      assert ranges[i] == r && ranges[|front|] == last;
    }
  }

  /** What a list of blocks owes a set of addresses: exact, ascending, disjoint and as short as possible. */
  ghost predicate MinimalBlocks(blocks: seq<Block>, member: int -> bool) {
    && AllAligned(blocks) && Ascending(blocks)
    && (forall a :: Covers(blocks, a) <==> member(a))
    && (forall cover: set<Block> ::
          (forall b <- cover :: Aligned(b)) && (forall a :: SetCovers(cover, a) <==> member(a)) ==>
            |blocks| <= |cover|)
  }

  lemma SplitAllIsMinimal(ranges: seq<Range>, member: int -> bool)
    requires Separated(ranges)
    requires forall a :: member(a) <==> InRanges(ranges, a)
    ensures MinimalBlocks(SplitAll(ranges), member)
  {
    SplitAllAscending(ranges);
    forall a {
      SplitAllCovers(ranges, a);
    }
    forall cover: set<Block> | (forall b <- cover :: Aligned(b)) && (forall a :: SetCovers(cover, a) <==> member(a))
      ensures |SplitAll(ranges)| <= |cover|
    {
      assert ExactRangesCover(cover, ranges);
      SplitAllMinimal(cover, ranges);
    }
  }
}
