/**
 Splitting a closed IPv4 range into aligned blocks (section 3.1 of RFC 4632).
 A block is a network address with a prefix length, as the source prints it.
 */
module Cidr {
  import opened Collections
  import opened Powers

  const ADDRESS_COUNT: nat := 0x1_0000_0000

  type Address = a: int | 0 <= a < 0x1_0000_0000

  datatype Block = Block(ip: int, prefix: int)

  function Size(b: Block): nat
    requires 0 <= b.prefix <= 32
  {
    Pow2(32 - b.prefix)
  }

  ghost predicate Aligned(b: Block) {
    && 0 <= b.prefix <= 32
    && 0 <= b.ip
    && b.ip % Size(b) == 0
    && b.ip + Size(b) <= ADDRESS_COUNT
  }

  ghost predicate Holds(b: Block, a: int) {
    0 <= b.prefix <= 32 && b.ip <= a < b.ip + Size(b)
  }

  ghost predicate AllAligned(blocks: seq<Block>) {
    forall b <- blocks :: Aligned(b)
  }

  /** The first block ends before the second one starts. */
  ghost predicate Before(b: Block, c: Block) {
    0 <= b.prefix <= 32 && b.ip + Size(b) <= c.ip
  }

  ghost predicate Ascending(blocks: seq<Block>) {
    forall i, j :: 0 <= i < j < |blocks| ==> Before(blocks[i], blocks[j])
  }

  ghost predicate Covers(blocks: seq<Block>, a: int) {
    exists b <- blocks :: Holds(b, a)
  }

  ghost predicate SetCovers(blocks: set<Block>, a: int) {
    exists b <- blocks :: Holds(b, a)
  }

  /** The exponent one step of the split chooses at address s with e as the last address left. */
  function StepBits(s: nat, e: nat): (k: nat)
    requires s <= e < ADDRESS_COUNT
    ensures k <= 32 && Pow2(k) <= e - s + 1
  {
    var alignment := TrailingZeros32(s);
    var size := FloorLog2(e - s + 1);
    FloorLog2Exact(e - s + 1, size);
    FloorLog2Exact(e - s + 1, if size > alignment then alignment else size);
    FloorLog2AtMost32(e - s + 1);
    if size > alignment then alignment else size
  }

  lemma FloorLog2AtMost32(n: nat)
    requires 0 < n <= ADDRESS_COUNT
    ensures FloorLog2(n) <= 32
  {
    if FloorLog2(n) > 32 {
      FloorLog2Exact(n, 33);
      Pow2At32();
      assert false;
    }
  }

  /** The chosen block is aligned, and it is the largest aligned block that starts at s and ends by e. */
  lemma StepIsLargest(s: nat, e: nat, k: nat)
    requires s <= e < ADDRESS_COUNT && k <= 32
    ensures s % Pow2(k) == 0 && s + Pow2(k) <= e + 1 <==> k <= StepBits(s, e)
  {
    FloorLog2Exact(e - s + 1, k);
    if s == 0 {
      assert s % Pow2(k) == 0;
    } else {
      TrailingZerosExact(s, k);
    }
  }

  /** The split as a function: take the largest block, continue behind it. */
  function Split(s: nat, e: int): seq<Block>
    requires e < ADDRESS_COUNT
    decreases e - s
  {
    if s > e then []
    else
      var k := StepBits(s, e);
      [Block(s, 32 - k)] + Split(s + Pow2(k), e)
  }

  lemma {:induction false} SplitExact(s: nat, e: int)
    requires e < ADDRESS_COUNT
    ensures AllAligned(Split(s, e))
    ensures Ascending(Split(s, e))
    ensures forall a :: Covers(Split(s, e), a) <==> s <= a <= e
    ensures forall b <- Split(s, e) :: s <= b.ip
    decreases e - s
  {
    if s <= e {
      var k := StepBits(s, e);
      StepIsLargest(s, e, k);
      var head, tail := Block(s, 32 - k), Split(s + Pow2(k), e);
      SplitExact(s + Pow2(k), e);
      assert Split(s, e) == [head] + tail;
      forall a
        ensures Covers(Split(s, e), a) <==> s <= a <= e
      {
        CoversConcat([head], tail, a);
        assert head in [head];
      }
    }
  }

  lemma CoversConcat(xs: seq<Block>, ys: seq<Block>, a: int)
    ensures Covers(xs + ys, a) <==> Covers(xs, a) || Covers(ys, a)
  {
    if Covers(xs, a) {
      var b :| b in xs && Holds(b, a);
      assert b in xs + ys;
    }
    if Covers(ys, a) {
      var b :| b in ys && Holds(b, a);
      assert b in xs + ys;
    }
  }

  /** Two aligned blocks that share an address are nested. */
  lemma OverlapIsNesting(b: Block, c: Block, a: int)
    requires Aligned(b) && Aligned(c) && c.prefix <= b.prefix
    requires Holds(b, a) && Holds(c, a)
    ensures c.ip <= b.ip && b.ip + Size(b) <= c.ip + Size(c)
  {
    var m := Pow2(b.prefix - c.prefix);
    Pow2Add(b.prefix - c.prefix, 32 - b.prefix);
    AlignedNest(b.ip, Size(b), c.ip, m);
  }

  lemma AlignedNest(x: nat, d: nat, y: nat, m: nat)
    requires d > 0 && m > 0 && x % d == 0 && y % (m * d) == 0
    requires x < y + m * d && y < x + d
    ensures y <= x && x + d <= y + m * d
  {
    var i := MultipleOf(x, d);
    var q := MultipleOf(y, m * d);
    MulAssociative(q, m, d);
    NestedMultiples(i, q * m, m, d);
  }

  lemma MulAssociative(q: int, m: int, d: int)
    ensures q * (m * d) == (q * m) * d
  {
  }

  lemma NestedMultiples(i: int, j: int, m: int, d: int)
    requires d > 0
    requires i * d < j * d + m * d && j * d < i * d + d
    ensures j * d <= i * d && i * d + d <= j * d + m * d
  {
    MulCancel(i, j + m, d);
    MulCancel(j, i + 1, d);
    MulOrder(j, i, d);
    MulOrder(i + 1, j + m, d);
  }

  /** A set of aligned blocks whose union is exactly the closed range. */
  ghost predicate ExactCover(cover: set<Block>, s: int, e: int) {
    && (forall b <- cover :: Aligned(b))
    && (forall a :: SetCovers(cover, a) <==> s <= a <= e)
  }

  lemma BlockWithinCover(cover: set<Block>, s: int, e: int, b: Block)
    requires ExactCover(cover, s, e) && b in cover
    ensures s <= b.ip && b.ip + Size(b) <= e + 1
  {
    assert Holds(b, b.ip) && Holds(b, b.ip + Size(b) - 1);
    assert SetCovers(cover, b.ip) && SetCovers(cover, b.ip + Size(b) - 1);
  }

  /** In an exact cover every block lies inside the block the split takes first, or behind it. */
  lemma FirstBlockSeparates(cover: set<Block>, s: nat, e: nat, b: Block)
    requires s <= e < ADDRESS_COUNT
    requires ExactCover(cover, s, e) && b in cover
    ensures var end := s + Pow2(StepBits(s, e)); b.ip + Size(b) <= end || end <= b.ip
  {
    var k := StepBits(s, e);
    var first := Block(s, 32 - k);
    StepIsLargest(s, e, k);
    BlockWithinCover(cover, s, e, b);
    if b.ip < s + Pow2(k) < b.ip + Size(b) {
      if 32 - b.prefix <= k {
        OverlapIsNesting(b, first, b.ip);
      } else {
        OverlapIsNesting(first, b, b.ip);
        assert b.ip == s;
        StepIsLargest(s, e, 32 - b.prefix);
      }
      assert false;
    }
  }

  /** No set of aligned blocks with the same union is smaller than the split. */
  lemma {:induction false} SplitMinimal(cover: set<Block>, s: nat, e: int)
    requires e < ADDRESS_COUNT
    requires ExactCover(cover, s, e)
    ensures |Split(s, e)| <= |cover|
    decreases e - s
  {
    if s <= e {
      var end := s + Pow2(StepBits(s, e));
      assert SetCovers(cover, s);
      var taken :| taken in cover && Holds(taken, s);
      var rest := set b | b in cover && end <= b.ip;
      assert taken !in rest;
      forall a
        ensures SetCovers(rest, a) <==> end <= a <= e
      {
        if SetCovers(rest, a) {
          var b :| b in rest && Holds(b, a);
          assert b in cover;
          assert SetCovers(cover, a);
        }
        if end <= a <= e {
          assert SetCovers(cover, a);
          var b :| b in cover && Holds(b, a);
          FirstBlockSeparates(cover, s, e, b);
          assert b in rest;
        }
      }
      assert ExactCover(rest, end, e);
      SplitMinimal(rest, end, e);
      SubsetCard(rest, cover - {taken});
    }
  }

  lemma SplitSmallest(s: nat, e: int)
    requires e < ADDRESS_COUNT
    ensures forall cover: set<Block> :: ExactCover(cover, s, e) ==> |Split(s, e)| <= |cover|
  {
    hide ExactCover, Split;
    forall cover: set<Block> | ExactCover(cover, s, e)
      ensures |Split(s, e)| <= |cover|
    {
      SplitMinimal(cover, s, e);
    }
  }

  /** The source's loop. Unsigned 64-bit arithmetic keeps the full range from wrapping. */
  method RangeToCidrs(startIp: Address, endIp: Address) returns (out: seq<Block>)
    ensures AllAligned(out) && Ascending(out)
    ensures forall a :: Covers(out, a) <==> startIp <= a <= endIp
    ensures forall cover: set<Block> :: ExactCover(cover, startIp, endIp) ==> |out| <= |cover|
    ensures out == Split(startIp, endIp)
  {
    hide Ascending, AllAligned, Covers, ExactCover;
    out := [];
    var s: nat, e := startIp, endIp;
    while s <= e
      invariant out + Split(s, e) == Split(startIp, endIp)
      decreases e + 1 - s
    {
      var alignment := TrailingZeros32(s);
      FloorLog2AtMost32(e - s + 1);
      var size := FloorLog2(e - s + 1);
      if size > alignment {
        size := alignment;
      }
      assert size == StepBits(s, e);
      out := out + [Block(s, 32 - size)];
      s := s + Pow2(size);
    }
    assert out == Split(startIp, endIp);
    SplitExact(startIp, endIp);
    SplitSmallest(startIp, endIp);
  }
}
