/** The blocks of one database that belong to the chosen provinces. */
module Provinces {
  import opened Cidr
  import opened Ranges
  import opened Ipdb

  predicate IsWanted(db: Db, s: Segment, provinces: seq<Text>)
    requires s.loc < |db.locations|
  {
    var loc := db.locations[s.loc];
    loc.country == CHINA && loc.region in provinces
  }

  ghost predicate InProvinces(db: Db, segments: seq<Segment>, provinces: seq<Text>, a: int)
    requires forall s <- segments :: s.loc < |db.locations|
  {
    exists s <- segments :: InSegment(s, a) && IsWanted(db, s, provinces)
  }

  ghost function ProvinceMember(db: Db, provinces: seq<Text>): int -> bool
    requires RefsOk(db)
  {
    (a: int) => InProvinces(db, db.segments, provinces, a)
  }

  /** The ranges collected so far, the open one included. */
  ghost function WithOpen(ranges: seq<Range>, open: bool, start: Address, end: Address): seq<Range> {
    if open then ranges + [Range(start, end)] else ranges
  }

  /** After i segments the ranges, the open one included, hold exactly the wanted addresses seen so far. */
  ghost predicate ScanState(db: Db, provinces: seq<Text>, i: nat, ranges: seq<Range>,
                            hasRange: bool, start: Address, end: Address)
    requires RefsOk(db) && i <= |db.segments|
  {
    && (!hasRange ==> ranges == [])
    && Separated(WithOpen(ranges, hasRange, start, end))
    && (hasRange ==> forall j :: i <= j < |db.segments| ==> end < db.segments[j].start)
    && (forall a :: InRanges(WithOpen(ranges, hasRange, start, end), a) <==>
                    InProvinces(db, db.segments[..i], provinces, a))
  }

  lemma InProvincesNext(db: Db, i: nat, provinces: seq<Text>, a: int)
    requires RefsOk(db) && i < |db.segments|
    ensures InProvinces(db, db.segments[..i + 1], provinces, a) <==>
      InProvinces(db, db.segments[..i], provinces, a) ||
      (InSegment(db.segments[i], a) && IsWanted(db, db.segments[i], provinces))
  {
    var s := db.segments[i];
    assert db.segments[..i + 1] == db.segments[..i] + [s];
    if InProvinces(db, db.segments[..i], provinces, a) {
      var t :| t in db.segments[..i] && InSegment(t, a) && IsWanted(db, t, provinces);
      assert t in db.segments[..i + 1];
    }
    assert s in db.segments[..i + 1];
  }

  lemma SkipSegment(db: Db, provinces: seq<Text>, i: nat, ranges: seq<Range>, hasRange: bool, start: Address, end: Address)
    requires RefsOk(db) && i < |db.segments| && ScanState(db, provinces, i, ranges, hasRange, start, end)
    requires !IsWanted(db, db.segments[i], provinces)
    ensures ScanState(db, provinces, i + 1, ranges, hasRange, start, end)
  {
    forall a {
      InProvincesNext(db, i, provinces, a);
    }
  }

  lemma ExtendRange(db: Db, provinces: seq<Text>, i: nat, ranges: seq<Range>, start: Address, end: Address)
    requires RefsOk(db) && Sorted(db.segments)
    requires i < |db.segments| && ScanState(db, provinces, i, ranges, true, start, end)
    requires IsWanted(db, db.segments[i], provinces) && end + 1 == db.segments[i].start
    ensures ScanState(db, provinces, i + 1, ranges, true, start, db.segments[i].end)
  {
    var s := db.segments[i];
    assert s in db.segments;
    var before, after := WithOpen(ranges, true, start, end), WithOpen(ranges, true, start, s.end);
    assert before[|ranges|] == Range(start, end);
    forall a
      ensures InRanges(after, a) <==> InProvinces(db, db.segments[..i + 1], provinces, a)
    {
      InProvincesNext(db, i, provinces, a);
      InRangesSnoc(ranges, Range(start, end), a);
      InRangesSnoc(ranges, Range(start, s.end), a);
    }
    assert Separated(after) by {
      assert forall j :: 0 <= j < |ranges| ==> before[j] == ranges[j] == after[j];
    }
  }

  lemma NewRange(db: Db, provinces: seq<Text>, i: nat, ranges: seq<Range>, hasRange: bool, start: Address, end: Address)
    requires RefsOk(db) && Sorted(db.segments)
    requires i < |db.segments| && ScanState(db, provinces, i, ranges, hasRange, start, end)
    requires IsWanted(db, db.segments[i], provinces) && (hasRange ==> end + 1 != db.segments[i].start)
    ensures ScanState(db, provinces, i + 1, WithOpen(ranges, hasRange, start, end), true,
                      db.segments[i].start, db.segments[i].end)
  {
    var s := db.segments[i];
    assert s in db.segments;
    var before := WithOpen(ranges, hasRange, start, end);
    forall a
      ensures InRanges(before + [Range(s.start, s.end)], a) <==> InProvinces(db, db.segments[..i + 1], provinces, a)
    {
      InProvincesNext(db, i, provinces, a);
      InRangesSnoc(before, Range(s.start, s.end), a);
    }
    if hasRange {
      assert before[|ranges|] == Range(start, end);
    }
  }

  lemma ScanFinished(db: Db, provinces: seq<Text>, ranges: seq<Range>, hasRange: bool, start: Address, end: Address)
    requires RefsOk(db) && ScanState(db, provinces, |db.segments|, ranges, hasRange, start, end)
    ensures MinimalBlocks(SplitAll(WithOpen(ranges, hasRange, start, end)), ProvinceMember(db, provinces))
  {
    assert db.segments[..|db.segments|] == db.segments;
    SplitAllIsMinimal(WithOpen(ranges, hasRange, start, end), ProvinceMember(db, provinces));
  }

  /**
   The result covers exactly the addresses of the wanted segments, ascending and disjoint, and no set of
   aligned blocks does so with fewer blocks.
   */
  method CidrsOfProvinces(db: Db, provinces: seq<Text>) returns (out: seq<Block>)
    requires RefsOk(db) && Sorted(db.segments)
    ensures MinimalBlocks(out, ProvinceMember(db, provinces))
  {
    hide ScanState, MinimalBlocks;
    out := [];
    var hasRange := false;
    var start: Address, end: Address := 0, 0;
    ghost var ranges: seq<Range> := [];
    ScanStart(db, provinces);
    for i := 0 to |db.segments|
      invariant out == SplitAll(ranges)
      invariant ScanState(db, provinces, i, ranges, hasRange, start, end)
    {
      var s := db.segments[i];
      if !IsWanted(db, s, provinces) {
        SkipSegment(db, provinces, i, ranges, hasRange, start, end);
        continue;
      }
      OpenEndsBefore(db, provinces, i, ranges, hasRange, start, end);
      if hasRange && (end + 1) % ADDRESS_COUNT == s.start {
        ExtendRange(db, provinces, i, ranges, start, end);
        end := s.end;
        continue;
      }
      NewRange(db, provinces, i, ranges, hasRange, start, end);
      if hasRange {
        var blocks := RangeToCidrs(start, end);
        SplitAllSnoc(ranges, Range(start, end));
        out := out + blocks;
        ranges := ranges + [Range(start, end)];
      }
      hasRange, start, end := true, s.start, s.end;
    }
    ScanFinished(db, provinces, ranges, hasRange, start, end);
    if hasRange {
      var blocks := RangeToCidrs(start, end);
      SplitAllSnoc(ranges, Range(start, end));
      out := out + blocks;
    }
  }

  lemma ScanStart(db: Db, provinces: seq<Text>)
    requires RefsOk(db)
    ensures ScanState(db, provinces, 0, [], false, 0, 0)
  {
  }

  lemma OpenEndsBefore(db: Db, provinces: seq<Text>, i: nat, ranges: seq<Range>, hasRange: bool, start: Address, end: Address)
    requires RefsOk(db) && i < |db.segments| && ScanState(db, provinces, i, ranges, hasRange, start, end)
    ensures hasRange ==> end < db.segments[i].start
  {
  }

  /** So an address is covered exactly when a lookup places it in a wanted Chinese province. */
  lemma CoveredByLookup(db: Db, provinces: seq<Text>, out: seq<Block>, a: int)
    requires RefsOk(db) && Sorted(db.segments) && MinimalBlocks(out, ProvinceMember(db, provinces))
    ensures Covers(out, a) <==>
      LocationAt(db, a).Some? && LocationAt(db, a).value.country == CHINA && LocationAt(db, a).value.region in provinces
  {
    assert Covers(out, a) <==> ProvinceMember(db, provinces)(a);
    if InProvinces(db, db.segments, provinces, a) {
      var s :| s in db.segments && InSegment(s, a) && IsWanted(db, s, provinces);
      var i :| 0 <= i < |db.segments| && db.segments[i] == s;
      ScanFinds(db.segments, i, a);
    }
  }
}
