/** The compacting builder, and when what it writes can be read back. */
module IpdbBuild {
  import opened Collections
  import opened Cidr
  import opened Ipdb
  import opened IpdbFormat

  datatype Record = Record(start: Address, end: Address, country: Text, region: Text, city: Text, isp: Text)

  function LocOf(r: Record): Location {
    Location(r.country, r.region, r.city, r.isp)
  }

  /** The order check of the builder: each record starts behind the end of the one before it. */
  ghost predicate Ordered(records: seq<Record>) {
    && (forall r <- records :: r.start <= r.end)
    && (forall i, j :: 0 <= i < j < |records| ==> records[i].end < records[j].start)
  }

  ghost function LocationsOf(records: seq<Record>): set<Location> {
    set r | r in records :: LocOf(r)
  }

  ghost function FieldsOf(l: Location): set<Text> {
    {l.country, l.region, l.city, l.isp}
  }

  ghost function StringsOf(records: seq<Record>): set<Text> {
    {[]} + set r, t | r in records && t in FieldsOf(LocOf(r)) :: t
  }

  /** The number of segments left after neighbours with the same location are merged. */
  ghost function MergedCount(records: seq<Record>): nat {
    if records == [] then 0
    else
      var front, last := records[..|records| - 1], records[|records| - 1];
      if front != [] && MergesWith(front[|front| - 1], last) then MergedCount(front) else MergedCount(front) + 1
  }

  ghost predicate MergesWith(prev: Record, r: Record) {
    prev.end + 1 == r.start && LocOf(prev) == LocOf(r)
  }

  /** The reference search over the raw records. */
  ghost predicate RecordAt(records: seq<Record>, a: int, l: Location) {
    exists r <- records :: r.start <= a <= r.end && LocOf(r) == l
  }

  ghost predicate SegmentAt(segments: seq<Segment>, locations: seq<Location>, a: int, l: Location)
    requires forall s <- segments :: s.loc < |locations|
  {
    exists s <- segments :: InSegment(s, a) && locations[s.loc] == l
  }

  // ----- interning

  ghost predicate Distinct<T(!new)>(items: seq<T>) {
    forall i, j :: 0 <= i < j < |items| ==> items[i] != items[j]
  }

  ghost function SetOf<T>(items: seq<T>): set<T> {
    set x | x in items
  }

  ghost predicate Interned<T(!new)>(index: map<T, nat>, items: seq<T>) {
    && Distinct(items)
    && (forall x :: x in index <==> x in items)
    && (forall x :: x in index ==> index[x] < |items| && items[index[x]] == x)
  }

  method Intern<T(==, !new)>(index: map<T, nat>, items: seq<T>, x: T) returns (index': map<T, nat>, items': seq<T>)
    requires Interned(index, items)
    ensures Interned(index', items')
    ensures items' == if x in items then items else items + [x]
    ensures SetOf(items') == SetOf(items) + {x}
  {
    if x in index {
      return index, items;
    }
    index', items' := index[x := |items|], items + [x];
  }

  lemma {:induction false} DistinctCount<T(!new)>(items: seq<T>)
    requires Distinct(items)
    ensures |SetOf(items)| == |items|
  {
    if items != [] {
      var front, last := items[..|items| - 1], items[|items| - 1];
      DistinctCount(front);
      assert last !in front;
      assert SetOf(items) == SetOf(front) + {last};
    }
  }

  method InternFields(index: map<Text, nat>, strings: seq<Text>, l: Location)
    returns (index': map<Text, nat>, strings': seq<Text>)
    requires Interned(index, strings)
    ensures Interned(index', strings')
    ensures SetOf(strings') == SetOf(strings) + FieldsOf(l)
    ensures strings <= strings'
  {
    hide Interned, SetOf, FieldsOf;
    index', strings' := Intern(index, strings, l.country);
    ghost var s1 := SetOf(strings');
    index', strings' := Intern(index', strings', l.region);
    ghost var s2 := SetOf(strings');
    index', strings' := Intern(index', strings', l.city);
    ghost var s3 := SetOf(strings');
    index', strings' := Intern(index', strings', l.isp);
    FourFields(SetOf(strings), s1, s2, s3, SetOf(strings'), l);
  }

  lemma FourFields(s0: set<Text>, s1: set<Text>, s2: set<Text>, s3: set<Text>, s4: set<Text>, l: Location)
    requires s1 == s0 + {l.country} && s2 == s1 + {l.region} && s3 == s2 + {l.city} && s4 == s3 + {l.isp}
    ensures s4 == s0 + FieldsOf(l)
  {
  }

  // ----- the state of the builder's loop

  /** The segments are sorted and hold exactly what the records hold, in as many pieces as merging leaves. */
  ghost predicate Compacted(records: seq<Record>, segments: seq<Segment>, locations: seq<Location>) {
    && Sorted(segments)
    && (forall s <- segments :: s.loc < |locations|)
    && (forall a, l :: SegmentAt(segments, locations, a, l) <==> RecordAt(records, a, l))
    && |segments| == MergedCount(records)
    && (segments == [] <==> records == [])
    && (records != [] ==>
          var last := segments[|segments| - 1];
          last.end == records[|records| - 1].end && locations[last.loc] == LocOf(records[|records| - 1]))
  }

  /** The tables hold each location and each string of the records once. */
  ghost predicate Tabled(records: seq<Record>, locations: seq<Location>, strings: seq<Text>) {
    && Distinct(locations) && SetOf(locations) == LocationsOf(records)
    && Distinct(strings) && SetOf(strings) == StringsOf(records)
    && strings != [] && strings[0] == []
  }

  lemma RecordAtSnoc(records: seq<Record>, r: Record, a: int, l: Location)
    ensures RecordAt(records + [r], a, l) <==> RecordAt(records, a, l) || (r.start <= a <= r.end && LocOf(r) == l)
  {
    if RecordAt(records, a, l) {
      var x :| x in records && x.start <= a <= x.end && LocOf(x) == l;
      assert x in records + [r];
    }
    assert r in records + [r];
  }

  lemma SegmentAtSnoc(segments: seq<Segment>, s: Segment, locations: seq<Location>, a: int, l: Location)
    requires (forall t <- segments :: t.loc < |locations|) && s.loc < |locations|
    ensures SegmentAt(segments + [s], locations, a, l) <==>
      SegmentAt(segments, locations, a, l) || (InSegment(s, a) && locations[s.loc] == l)
  {
    if SegmentAt(segments, locations, a, l) {
      var t :| t in segments && InSegment(t, a) && locations[t.loc] == l;
      assert t in segments + [s];
    }
    assert s in segments + [s];
  }

  lemma GrowLocations(records: seq<Record>, segments: seq<Segment>, locations: seq<Location>, locations': seq<Location>)
    requires Compacted(records, segments, locations) && locations <= locations'
    ensures Compacted(records, segments, locations')
  {
    forall a, l
      ensures SegmentAt(segments, locations', a, l) <==> RecordAt(records, a, l)
    {
      assert SegmentAt(segments, locations', a, l) <==> SegmentAt(segments, locations, a, l);
    }
  }

  lemma AppendSegment(records: seq<Record>, r: Record, segments: seq<Segment>, locations: seq<Location>, id: Word16)
    requires Compacted(records, segments, locations) && Ordered(records + [r])
    requires id < |locations| && locations[id] == LocOf(r)
    requires records != [] ==> !MergesWith(records[|records| - 1], r)
    ensures Compacted(records + [r], segments + [Segment(r.start, r.end, id)], locations)
  {
    var s := Segment(r.start, r.end, id);
    forall a, l
      ensures SegmentAt(segments + [s], locations, a, l) <==> RecordAt(records + [r], a, l)
    {
      RecordAtSnoc(records, r, a, l);
      SegmentAtSnoc(segments, s, locations, a, l);
    }
    CountSnoc(records, r);
    assert (records + [r])[|records|] == r;
    SortedSnoc(records, r, segments, locations, s);
  }

  lemma SortedSnoc(records: seq<Record>, r: Record, segments: seq<Segment>, locations: seq<Location>, s: Segment)
    requires Compacted(records, segments, locations) && Ordered(records + [r])
    requires s.start == r.start && s.end == r.end
    ensures Sorted(segments + [s])
  {
    assert (records + [r])[|records|] == r;
    assert r in records + [r];
    if records != [] {
      assert (records + [r])[|records| - 1] == records[|records| - 1];
    }
  }

  lemma CountSnoc(records: seq<Record>, r: Record)
    ensures MergedCount(records + [r]) ==
      MergedCount(records) + if records != [] && MergesWith(records[|records| - 1], r) then 0 else 1
  {
    assert (records + [r])[..|records|] == records;
  }

  lemma ExtendSegment(records: seq<Record>, r: Record, segments: seq<Segment>, locations: seq<Location>)
    requires Compacted(records, segments, locations) && Ordered(records + [r])
    requires records != [] && MergesWith(records[|records| - 1], r)
    ensures var n := |segments| - 1;
      Compacted(records + [r], segments[n := segments[n].(end := r.end)], locations)
  {
    var n := |segments| - 1;
    var front, last := segments[..n], segments[n];
    var longer := last.(end := r.end);
    assert segments == front + [last];
    assert segments[n := longer] == front + [longer];
    assert r in records + [r] && last in segments;
    SortedLonger(front, last, longer);
    hide Sorted;
    forall a, l
      ensures SegmentAt(front + [longer], locations, a, l) <==> RecordAt(records + [r], a, l)
    {
      RecordAtSnoc(records, r, a, l);
      SegmentAtSnoc(front, last, locations, a, l);
      SegmentAtSnoc(front, longer, locations, a, l);
    }
    CountSnoc(records, r);
  }

  lemma SortedLonger(front: seq<Segment>, last: Segment, longer: Segment)
    requires Sorted(front + [last])
    requires longer.start == last.start && last.end <= longer.end
    ensures Sorted(front + [longer])
  {
    var before, after := front + [last], front + [longer];
    assert before[|front|] == last && last in before;
    forall s | s in after
      ensures s.start <= s.end
    {
      assert s in before || s == longer;
    }
    assert forall i :: 0 <= i < |front| ==> after[i] == before[i];
  }

  lemma MergeTest(records: seq<Record>, r: Record, segments: seq<Segment>, locations: seq<Location>, id: Word16)
    requires Compacted(records, segments, locations) && Ordered(records + [r])
    requires Distinct(locations) && id < |locations| && locations[id] == LocOf(r)
    ensures (segments != [] && segments[|segments| - 1].loc == id &&
             (segments[|segments| - 1].end + 1) % ADDRESS_COUNT == r.start) <==>
            records != [] && MergesWith(records[|records| - 1], r)
  {
    if records != [] {
      var last := segments[|segments| - 1];
      assert last in segments;
      assert (records + [r])[|records| - 1] == records[|records| - 1] && (records + [r])[|records|] == r;
      assert records[|records| - 1].end < r.start;
    }
  }

  lemma StringsSnoc(records: seq<Record>, r: Record)
    ensures StringsOf(records + [r]) == StringsOf(records) + FieldsOf(LocOf(r))
    ensures LocationsOf(records + [r]) == LocationsOf(records) + {LocOf(r)}
    ensures LocOf(r) in LocationsOf(records) ==> FieldsOf(LocOf(r)) <= StringsOf(records)
  {
    forall x | x in records + [r]
      ensures x in records || x == r
    {
    }
    assert r in records + [r];
    assert forall x <- records :: x in records + [r];
  }

  // ----- the builder

  datatype BuildError = StartAfterEnd(index: nat) | Overlap(index: nat) | TooManyLocations | NoSegments | StringTooLong

  ghost predicate Accepted(records: seq<Record>) {
    && Ordered(records) && records != []
    && |LocationsOf(records)| <= 0x1_0000
    && (forall t <- StringsOf(records) :: |t| < 0x1_0000)
  }

  function IndexOf(strings: seq<Text>, t: Text): (i: nat)
    requires t in strings
    ensures i < |strings| && strings[i] == t
  {
    if strings[0] == t then 0 else 1 + IndexOf(strings[1..], t)
  }

  /** The four indices of a location, each cut to 16 bits. */
  function CutRaw(l: Location, strings: seq<Text>): Raw
    requires l.country in strings && l.region in strings && l.city in strings && l.isp in strings
  {
    Raw(IndexOf(strings, l.country) % 0x1_0000, IndexOf(strings, l.region) % 0x1_0000,
        IndexOf(strings, l.city) % 0x1_0000, IndexOf(strings, l.isp) % 0x1_0000)
  }

  ghost predicate RawsOf(locations: seq<Location>, strings: seq<Text>, raws: seq<Raw>) {
    && |raws| == |locations|
    && forall i :: 0 <= i < |raws| ==> FieldsOf(locations[i]) <= SetOf(strings) && raws[i] == CutRaw(locations[i], strings)
  }

  /** Everything the file is written from, and what it owes the records. */
  ghost predicate BuiltFrom(records: seq<Record>, segments: seq<Segment>, locations: seq<Location>, strings: seq<Text>,
                            raws: seq<Raw>)
  {
    && Compacted(records, segments, locations)
    && Tabled(records, locations, strings)
    && RawsOf(locations, strings, raws)
    && |strings| < ADDRESS_COUNT
    && (forall s <- strings :: |s| < 0x1_0000)
  }

  lemma IndexUnique(index: map<Text, nat>, strings: seq<Text>, t: Text)
    requires Interned(index, strings) && t in strings
    ensures t in index && index[t] == IndexOf(strings, t)
  {
  }

  lemma FieldsInStrings(records: seq<Record>, locations: seq<Location>, strings: seq<Text>, i: nat)
    requires Tabled(records, locations, strings) && i < |locations|
    ensures FieldsOf(locations[i]) <= SetOf(strings)
  {
    assert locations[i] in SetOf(locations);
  }

  method CutIndices(ghost records: seq<Record>, index: map<Text, nat>, locations: seq<Location>, strings: seq<Text>)
    returns (raws: seq<Raw>)
    requires Interned(index, strings) && Tabled(records, locations, strings)
    ensures RawsOf(locations, strings, raws)
  {
    raws := [];
    for i := 0 to |locations|
      invariant RawsOf(locations[..i], strings, raws)
    {
      var l := locations[i];
      FieldsInStrings(records, locations, strings, i);
      FieldIndices(index, strings, l);
      hide Interned, Tabled, IndexOf;
      raws := raws + [Raw(index[l.country] % 0x1_0000, index[l.region] % 0x1_0000,
                          index[l.city] % 0x1_0000, index[l.isp] % 0x1_0000)];
    }
    assert locations[..|locations|] == locations;
  }

  lemma FieldIndices(index: map<Text, nat>, strings: seq<Text>, l: Location)
    requires Interned(index, strings) && FieldsOf(l) <= SetOf(strings)
    ensures forall t <- FieldsOf(l) :: t in strings && t in index && index[t] == IndexOf(strings, t)
  {
    forall t | t in FieldsOf(l)
      ensures t in strings && t in index && index[t] == IndexOf(strings, t)
    {
      assert t in SetOf(strings);
      IndexUnique(index, strings, t);
    }
  }

  ghost predicate LoopState(records: seq<Record>, i: nat, segments: seq<Segment>, locations: seq<Location>, strings: seq<Text>)
    requires i <= |records|
  {
    && Ordered(records[..i])
    && Compacted(records[..i], segments, locations)
    && Tabled(records[..i], locations, strings)
    && |locations| <= 0x1_0000
  }

  lemma StartLoop(records: seq<Record>)
    ensures LoopState(records, 0, [], [], [[]])
  {
    assert records[..0] == [];
  }

  lemma NextOrdered(records: seq<Record>, i: nat)
    requires i < |records| && Ordered(records[..i])
    ensures Ordered(records[..i + 1]) <==>
      records[i].start <= records[i].end && (0 < i ==> records[i - 1].end < records[i].start)
  {
    assert records[..i + 1] == records[..i] + [records[i]];
    if Ordered(records[..i + 1]) {
      assert records[..i + 1][i] == records[i];
      assert records[i] in records[..i + 1];
      if 0 < i {
        assert records[..i + 1][i - 1] == records[i - 1];
      }
    }
    if records[i].start <= records[i].end && (0 < i ==> records[i - 1].end < records[i].start) {
      var longer, front := records[..i + 1], records[..i];
      forall j, k | 0 <= j < k < |longer|
        ensures longer[j].end < longer[k].start
      {
        if k < i {
          assert front[j].end < front[k].start;
        } else if j < i - 1 {
          assert front[j].end < front[i - 1].start;
          assert front[i - 1] in front;
        }
      }
    }
  }

  lemma PrefixOrdered(records: seq<Record>, i: nat)
    requires Ordered(records) && i <= |records|
    ensures Ordered(records[..i])
  {
  }

  lemma TooManyStays(records: seq<Record>, i: nat)
    requires i <= |records| && |LocationsOf(records[..i])| > 0x1_0000
    ensures |LocationsOf(records)| > 0x1_0000
  {
    assert LocationsOf(records[..i]) <= LocationsOf(records);
    SubsetCard(LocationsOf(records[..i]), LocationsOf(records));
  }

  /** One record enters the tables. */
  lemma TabledStep(records: seq<Record>, i: nat, locations: seq<Location>, strings: seq<Text>,
                   locations': seq<Location>, strings': seq<Text>)
    requires i < |records| && Tabled(records[..i], locations, strings)
    requires var l := LocOf(records[i]);
      if l in locations then locations' == locations && strings' == strings
      else locations' == locations + [l] && strings <= strings' && Distinct(strings') &&
           SetOf(strings') == SetOf(strings) + FieldsOf(l)
    ensures Tabled(records[..i + 1], locations', strings')
  {
    assert records[..i + 1] == records[..i] + [records[i]];
    StringsSnoc(records[..i], records[i]);
    var l := LocOf(records[i]);
    if l in locations {
      assert l in SetOf(locations);
    } else {
      assert SetOf(locations + [l]) == SetOf(locations) + {l};
    }
  }

  /** One record enters the segment list, by a new segment or by extending the last one. */
  lemma CompactedStep(records: seq<Record>, i: nat, segments: seq<Segment>, locations: seq<Location>,
                      locations': seq<Location>, id: Word16)
    requires i < |records| && Ordered(records[..i + 1])
    requires Compacted(records[..i], segments, locations) && locations <= locations' && Distinct(locations')
    requires id < |locations'| && locations'[id] == LocOf(records[i])
    ensures var r, n := records[i], |segments| - 1;
      Compacted(records[..i + 1],
        if segments != [] && segments[n].loc == id && (segments[n].end + 1) % ADDRESS_COUNT == r.start
        then segments[n := segments[n].(end := r.end)]
        else segments + [Segment(r.start, r.end, id)],
        locations')
  {
    hide Compacted, Ordered, Distinct;
    var front, r := records[..i], records[i];
    assert records[..i + 1] == front + [r];
    GrowLocations(front, segments, locations, locations');
    MergeTest(front, r, segments, locations', id);
    if front != [] && MergesWith(front[|front| - 1], r) {
      ExtendSegment(front, r, segments, locations');
    } else {
      AppendSegment(front, r, segments, locations', id);
    }
  }

  /**
   The builder up to the point where it starts writing. It stops exactly on unordered or overlapping records,
   on more than 65536 locations and on an empty input.
   */
  method Compact(records: seq<Record>)
    returns (r: Result<(seq<Segment>, seq<Location>, seq<Text>, map<Text, nat>), BuildError>)
    ensures r.Ok? <==> Ordered(records) && records != [] && |LocationsOf(records)| <= 0x1_0000
    ensures r.Ok? ==>
      && Compacted(records, r.value.0, r.value.1)
      && Tabled(records, r.value.1, r.value.2)
      && Interned(r.value.3, r.value.2)
  {
    hide Compacted, Tabled, Ordered, Distinct, LocationsOf;
    var segments: seq<Segment> := [];
    var locations: seq<Location> := [];
    var locIndex: map<Location, nat> := map[];
    var strings: seq<Text> := [[]];
    var strIndex: map<Text, nat> := map[[] := 0];
    StartLoop(records);
    StartTables(strIndex, strings, locIndex, locations);
    for i := 0 to |records|
      invariant LoopState(records, i, segments, locations, strings)
      invariant Interned(locIndex, locations) && Interned(strIndex, strings)
    {
      hide Interned;
      var rec := records[i];
      OrderFacts(records, i);
      if rec.start > rec.end {
        return Err(StartAfterEnd(i));
      }
      if i > 0 && rec.start <= records[i - 1].end {
        return Err(Overlap(i));
      }
      var loc := LocOf(rec);
      ghost var locations0, strings0 := locations, strings;
      InternFacts(locIndex, locations, loc);
      if loc !in locIndex {
        if |locations| >= 0x1_0000 {
          LocationCount(records, i, locations, strings);
          return Err(TooManyLocations);
        }
        locIndex, locations := Intern(locIndex, locations, loc);
        strIndex, strings := InternFields(strIndex, strings, loc);
      }
      InternFacts(locIndex, locations, loc);
      InternDistinct(locIndex, locations);
      InternDistinct(strIndex, strings);
      var id: Word16 := locIndex[loc];
      TabledStep(records, i, locations0, strings0, locations, strings);
      CompactedStep(records, i, segments, locations0, locations, id);
      var n := |segments| - 1;
      if |segments| > 0 && segments[n].loc == id && (segments[n].end + 1) % ADDRESS_COUNT == rec.start {
        segments := segments[n := segments[n].(end := rec.end)];
      } else {
        segments := segments + [Segment(rec.start, rec.end, id)];
      }
    }
    assert records[..|records|] == records;
    EmptyWhen(records, segments, locations, strings);
    if |segments| == 0 {
      return Err(NoSegments);
    }
    r := Ok((segments, locations, strings, strIndex));
  }

  lemma StartTables(strIndex: map<Text, nat>, strings: seq<Text>, locIndex: map<Location, nat>, locations: seq<Location>)
    requires strIndex == map[[] := 0] && strings == [[]] && locIndex == map[] && locations == []
    ensures Interned(locIndex, locations) && Interned(strIndex, strings)
  {
  }

  lemma OrderFacts(records: seq<Record>, i: nat)
    requires i < |records| && Ordered(records[..i])
    ensures Ordered(records[..i + 1]) <==>
      records[i].start <= records[i].end && (0 < i ==> records[i - 1].end < records[i].start)
    ensures Ordered(records) ==> Ordered(records[..i + 1])
  {
    NextOrdered(records, i);
    if Ordered(records) {
      PrefixOrdered(records, i + 1);
    }
  }

  lemma InternFacts<T(!new)>(index: map<T, nat>, items: seq<T>, x: T)
    requires Interned(index, items)
    ensures x in index <==> x in items
    ensures x in index ==> index[x] < |items| && items[index[x]] == x
  {
  }

  lemma InternDistinct<T(!new)>(index: map<T, nat>, items: seq<T>)
    requires Interned(index, items)
    ensures Distinct(items)
  {
  }

  /** A further location on a full table is one location too many for the whole input. */
  lemma LocationCount(records: seq<Record>, i: nat, locations: seq<Location>, strings: seq<Text>)
    requires i < |records| && Tabled(records[..i], locations, strings) && LocOf(records[i]) !in locations
    requires |locations| >= 0x1_0000
    ensures |LocationsOf(records)| > 0x1_0000
  {
    hide LocationsOf;
    TabledCount(records[..i], locations, strings, LocOf(records[i]));
    hide Tabled;
    assert records[..i + 1] == records[..i] + [records[i]];
    StringsSnoc(records[..i], records[i]);
    OneMore(LocationsOf(records[..i]), LocOf(records[i]));
    TooManyStays(records, i + 1);
  }

  lemma TabledCount(records: seq<Record>, locations: seq<Location>, strings: seq<Text>, l: Location)
    requires Tabled(records, locations, strings)
    ensures |LocationsOf(records)| == |locations| && (l in LocationsOf(records) <==> l in locations)
  {
    DistinctCount(locations);
    assert l in SetOf(locations) <==> l in locations;
  }

  lemma OneMore(s: set<Location>, l: Location)
    requires l !in s
    ensures |s + {l}| == |s| + 1
  {
  }

  lemma EmptyWhen(records: seq<Record>, segments: seq<Segment>, locations: seq<Location>, strings: seq<Text>)
    requires LoopState(records, |records|, segments, locations, strings)
    ensures segments == [] <==> records == []
    ensures Ordered(records) && |LocationsOf(records)| <= 0x1_0000
    ensures Compacted(records, segments, locations) && Tabled(records, locations, strings)
  {
    assert records[..|records|] == records;
    DistinctCount(locations);
  }

  // ----- writing

  lemma {:induction false} SegmentTableSnoc(segments: seq<Segment>, s: Segment)
    ensures SegmentTable(segments + [s]) == SegmentTable(segments) + SegmentBytes(s)
  {
    if segments == [] {
      assert SegmentTable([s][1..]) == [];
      assert SegmentTable([s]) == SegmentBytes(s);
    } else {
      SegmentTableSnoc(segments[1..], s);
      assert (segments + [s])[1..] == segments[1..] + [s];
    }
  }

  lemma {:induction false} RawTableSnoc(raws: seq<Raw>, raw: Raw)
    ensures RawTable(raws + [raw], false) == RawTable(raws, false) + RawBytes(raw, false)
  {
    if raws == [] {
      assert RawTable([raw][1..], false) == [];
      assert RawTable([raw], false) == RawBytes(raw, false);
    } else {
      RawTableSnoc(raws[1..], raw);
      assert (raws + [raw])[1..] == raws[1..] + [raw];
    }
  }

  lemma {:induction false} StringTableSnoc(pool: seq<Text>, s: Text)
    requires (forall t <- pool :: |t| < 0x1_0000) && |s| < 0x1_0000
    ensures StringTable(pool + [s]) == StringTable(pool) + StringBytes(s)
  {
    if pool == [] {
      assert StringTable([s][1..]) == [];
      assert StringTable([s]) == StringBytes(s);
    } else {
      StringTableSnoc(pool[1..], s);
      assert (pool + [s])[1..] == pool[1..] + [s];
    }
  }

  method WriteSegments(segments: seq<Segment>) returns (w: seq<Byte>)
    ensures w == SegmentTable(segments)
  {
    w := [];
    for i := 0 to |segments|
      invariant w == SegmentTable(segments[..i])
    {
      var s := segments[i];
      SegmentTableSnoc(segments[..i], s);
      assert segments[..i + 1] == segments[..i] + [s];
      w := w + (U32(s.start) + U32(s.end) + U16(s.loc));
    }
    assert segments[..|segments|] == segments;
  }

  method WriteRaws(raws: seq<Raw>) returns (w: seq<Byte>)
    ensures w == RawTable(raws, false)
  {
    w := [];
    for i := 0 to |raws|
      invariant w == RawTable(raws[..i], false)
    {
      var raw := raws[i];
      RawTableSnoc(raws[..i], raw);
      assert raws[..i + 1] == raws[..i] + [raw];
      w := w + (U16(raw.country) + U16(raw.region) + U16(raw.city) + U16(raw.isp));
    }
    assert raws[..|raws|] == raws;
  }

  method WriteStrings(strings: seq<Text>) returns (r: Result<seq<Byte>, BuildError>)
    ensures r.Ok? <==> forall s <- strings :: |s| < 0x1_0000
    ensures r.Ok? ==> r.value == StringTable(strings)
  {
    var w: seq<Byte> := [];
    for i := 0 to |strings|
      invariant forall s <- strings[..i] :: |s| < 0x1_0000
      invariant w == StringTable(strings[..i])
    {
      var s := strings[i];
      assert s in strings;
      if |s| > 0xFFFF {
        return Err(StringTooLong);
      }
      StringTableSnoc(strings[..i], s);
      assert strings[..i + 1] == strings[..i] + [s];
      w := w + (U16(|s|) + s);
    }
    assert strings[..|strings|] == strings;
    r := Ok(w);
  }

  lemma {:induction false} StringsBound(records: seq<Record>, locations: seq<Location>, strings: seq<Text>)
    requires Tabled(records, locations, strings) && |locations| <= 0x1_0000
    ensures |strings| <= 4 * |locations| + 1
  {
    DistinctCount(locations);
    DistinctCount(strings);
    FieldBound(locations);
    forall t | t in SetOf(strings)
      ensures t in {[]} + AllFields(locations)
    {
      if t != [] {
        var r :| r in records && t in FieldsOf(LocOf(r));
        assert LocOf(r) in SetOf(locations);
      }
    }
    SubsetCard(SetOf(strings), {[]} + AllFields(locations));
  }

  ghost function AllFields(locations: seq<Location>): set<Text> {
    set l, t | l in locations && t in FieldsOf(l) :: t
  }

  lemma {:induction false} FieldBound(locations: seq<Location>)
    ensures |AllFields(locations)| <= 4 * |locations|
  {
    if locations != [] {
      var front, last := locations[..|locations| - 1], locations[|locations| - 1];
      FieldBound(front);
      assert AllFields(locations) == AllFields(front) + FieldsOf(last);
      var four := FieldsOf(last);
      assert four == {last.country} + {last.region} + {last.city} + {last.isp};
    }
  }

  /** The builder. It accepts exactly the inputs the format's checks admit, and writes the compacted tables. */
  method BuildRecords(records: seq<Record>, builtAt: Int64) returns (r: Result<seq<Byte>, BuildError>)
    ensures r.Ok? <==> Accepted(records)
    ensures r.Ok? ==> exists segments, locations, strings, raws ::
      BuiltFrom(records, segments, locations, strings, raws) && r.value == Serialise(builtAt, segments, raws, strings, false)
  {
    hide Compacted, Ordered, Interned, Distinct, LocationsOf, RawsOf, SegmentTable, RawTable, StringTable;
    var compacted := Compact(records);
    if compacted.Err? {
      return Err(compacted.error);
    }
    var (segments, locations, strings, index) := compacted.value;
    var raws := CutIndices(records, index, locations, strings);
    LocationsFit(records, locations, strings);
    StringsBound(records, locations, strings);
    assert forall t :: t in strings <==> t in SetOf(strings);
    var header := Header(builtAt, |segments| % ADDRESS_COUNT, |locations| % 0x1_0000, false);
    var segmentBytes := WriteSegments(segments);
    var rawBytes := WriteRaws(raws);
    var stringBytes := WriteStrings(strings);
    if stringBytes.Err? {
      return Err(stringBytes.error);
    }
    assert BuiltFrom(records, segments, locations, strings, raws) by {
      RawsCount(locations, strings, raws);
    }
    RawsCount(locations, strings, raws);
    r := Ok(header + segmentBytes + rawBytes + U32(|strings|) + stringBytes.value);
    assert r.value == Serialise(builtAt, segments, raws, strings, false);
  }

  lemma LocationsFit(records: seq<Record>, locations: seq<Location>, strings: seq<Text>)
    requires Tabled(records, locations, strings) && |LocationsOf(records)| <= 0x1_0000
    ensures |locations| == |LocationsOf(records)|
  {
    DistinctCount(locations);
  }

  lemma RawsCount(locations: seq<Location>, strings: seq<Text>, raws: seq<Raw>)
    requires RawsOf(locations, strings, raws)
    ensures |raws| == |locations|
  {
  }
}
