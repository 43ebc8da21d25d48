/** Build, parse, search: exactly when the compact file answers every query as the raw records would. */
module IpdbRoundTrip {
  import opened Collections
  import opened Cidr
  import opened Ipdb
  import opened IpdbFormat
  import opened IpdbBuild
  import IpdbParse

  /** A linear scan over the raw records. */
  function ScanRecords(records: seq<Record>, ip: Ip): (r: Option<Location>)
    ensures ip.V6? ==> r.None?
    ensures ip.V4? && r.None? ==> forall l :: !RecordAt(records, ip.addr, l)
    ensures ip.V4? && r.Some? ==> RecordAt(records, ip.addr, r.value)
  {
    if ip.V6? || records == [] then None
    else if records[0].start <= ip.addr <= records[0].end then
      Some(Location(records[0].country, records[0].region, records[0].city, records[0].isp))
    else
      var rest := ScanRecords(records[1..], ip);
      assert forall l :: RecordAt(records, ip.addr, l) <==> RecordAt(records[1..], ip.addr, l) by {
        RecordAtTail(records, ip.addr);
      }
      rest
  }

  lemma RecordAtTail(records: seq<Record>, a: int)
    requires records != [] && !(records[0].start <= a <= records[0].end)
    ensures forall l :: RecordAt(records, a, l) <==> RecordAt(records[1..], a, l)
  {
    forall l
      ensures RecordAt(records, a, l) <==> RecordAt(records[1..], a, l)
    {
      if RecordAt(records, a, l) {
        var r :| r in records && r.start <= a <= r.end && LocOf(r) == l;
        assert r in records[1..];
      }
    }
  }

  /** What the header and the location table can express: counts a caller can take from the records. */
  ghost predicate FitsFormat(records: seq<Record>) {
    && |LocationsOf(records)| <= 0xFFFF
    && |StringsOf(records)| <= 0x1_0000
    && MergedCount(records) < ADDRESS_COUNT
  }

  /** The parsed file answers every address as the records do. */
  ghost predicate Faithful(records: seq<Record>, parsed: Result<Db, ParseError>) {
    parsed.Ok? && RefsOk(parsed.value) && forall ip :: ScanLookup(parsed.value, ip) == ScanRecords(records, ip)
  }

  /** In ordered records at most one location holds an address. */
  lemma RecordAtUnique(records: seq<Record>, a: int, l: Location, m: Location)
    requires Ordered(records) && RecordAt(records, a, l) && RecordAt(records, a, m)
    ensures l == m
  {
    var r :| r in records && r.start <= a <= r.end && LocOf(r) == l;
    var q :| q in records && q.start <= a <= q.end && LocOf(q) == m;
    var i :| 0 <= i < |records| && records[i] == r;
    var j :| 0 <= j < |records| && records[j] == q;
    assert i == j;
  }

  lemma ScanAgrees(records: seq<Record>, segments: seq<Segment>, locations: seq<Location>, db: Db, ip: Ip)
    requires Ordered(records) && Compacted(records, segments, locations)
    requires db.segments == segments && db.locations == locations && RefsOk(db)
    ensures ScanLookup(db, ip) == ScanRecords(records, ip)
  {
    if ip.V4? {
      var found := Scan(segments, ip.addr);
      var expected := ScanRecords(records, ip);
      if found.Some? {
        assert SegmentAt(segments, locations, ip.addr, locations[found.value.loc]);
        RecordAtUnique(records, ip.addr, locations[found.value.loc], expected.value);
      } else if expected.Some? {
        NoSegmentThere(records, segments, locations, ip.addr, expected.value);
      }
    }
  }

  lemma NoSegmentThere(records: seq<Record>, segments: seq<Segment>, locations: seq<Location>, a: int, l: Location)
    requires Compacted(records, segments, locations) && RecordAt(records, a, l)
    ensures Scan(segments, a).Some?
  {
    assert SegmentAt(segments, locations, a, l);
  }

  lemma IndexOfInjective(strings: seq<Text>, t: Text, i: nat)
    requires Distinct(strings) && t in strings && i < |strings| && strings[i] == t
    ensures IndexOf(strings, t) == i
  {
  }

  /** With at most 65536 strings no index is cut, and resolving gives the locations back. */
  lemma ResolveExact(locations: seq<Location>, strings: seq<Text>, raws: seq<Raw>, i: nat)
    requires RawsOf(locations, strings, raws) && |strings| <= 0x1_0000 && i < |raws|
    ensures RawOk(raws[i], |strings|) && Resolve(raws[i], strings) == locations[i]
  {
    var l := locations[i];
    assert forall t <- FieldsOf(l) :: t in SetOf(strings);
    assert l.country in strings && l.region in strings && l.city in strings && l.isp in strings;
  }

  lemma RawsAlwaysOk(locations: seq<Location>, strings: seq<Text>, raws: seq<Raw>)
    requires RawsOf(locations, strings, raws)
    ensures forall raw <- raws :: RawOk(raw, |strings|)
  {
    forall i | 0 <= i < |raws|
      ensures RawOk(raws[i], |strings|)
    {
      var l := locations[i];
      assert forall t <- FieldsOf(l) :: t in SetOf(strings);
      CutBelow(IndexOf(strings, l.country), |strings|);
      CutBelow(IndexOf(strings, l.region), |strings|);
      CutBelow(IndexOf(strings, l.city), |strings|);
      CutBelow(IndexOf(strings, l.isp), |strings|);
    }
  }

  lemma CutBelow(i: nat, n: nat)
    requires i < n
    ensures i % 0x1_0000 < n
  {
  }

  lemma SizesOfTables(records: seq<Record>, locations: seq<Location>, strings: seq<Text>)
    requires Tabled(records, locations, strings)
    ensures |locations| == |LocationsOf(records)| && |strings| == |StringsOf(records)|
  {
    DistinctCount(locations);
    DistinctCount(strings);
  }

  lemma ParsesWhenCountsFit(records: seq<Record>, builtAt: Int64, segments: seq<Segment>, locations: seq<Location>,
                            strings: seq<Text>, raws: seq<Raw>)
    returns (db: Db)
    requires BuiltFrom(records, segments, locations, strings, raws)
    requires |segments| < ADDRESS_COUNT && |locations| <= 0xFFFF
    ensures ParseBytes(Serialise(builtAt, segments, raws, strings, false)) == Ok(db)
    ensures db.segments == segments && |db.locations| == |locations| && db.builtAt == builtAt && db.hasIsp
    ensures forall i :: 0 <= i < |raws| ==> RawOk(raws[i], |strings|) && db.locations[i] == Resolve(raws[i], strings)
  {
    RawsCount(locations, strings, raws);
    RawsAlwaysOk(locations, strings, raws);
    hide RawsOf, Tabled, Serialise, ParseBytes;
    ParseOfSerialise(builtAt, segments, raws, strings, false, []);
    var data := Serialise(builtAt, segments, raws, strings, false);
    assert data + [] == data;
    db := ParseBytes(data).value;
  }

  lemma FitMeansFaithful(records: seq<Record>, builtAt: Int64, segments: seq<Segment>, locations: seq<Location>,
                         strings: seq<Text>, raws: seq<Raw>)
    requires Ordered(records) && BuiltFrom(records, segments, locations, strings, raws) && FitsFormat(records)
    ensures Faithful(records, ParseBytes(Serialise(builtAt, segments, raws, strings, false)))
  {
    SizesOfTables(records, locations, strings);
    RawsCount(locations, strings, raws);
    var db := ParsesWhenCountsFit(records, builtAt, segments, locations, strings, raws);
    forall i | 0 <= i < |raws|
      ensures db.locations[i] == locations[i]
    {
      ResolveExact(locations, strings, raws, i);
    }
    assert db.locations == locations;
    forall ip {
      ScanAgrees(records, segments, locations, db, ip);
    }
  }

  lemma SerialiseParts(builtAt: Int64, segments: seq<Segment>, raws: seq<Raw>, strings: seq<Text>)
    requires |strings| < ADDRESS_COUNT && forall s <- strings :: |s| < 0x1_0000
    ensures Serialise(builtAt, segments, raws, strings, false) ==
      Header(builtAt, |segments| % ADDRESS_COUNT, |raws| % 0x1_0000, false) +
      (SegmentTable(segments) + (RawTable(raws, false) + (U32(|strings|) + StringTable(strings))))
  {
    hide Header, SegmentTable, RawTable, StringTable, U32;
  }

  /** 65536 locations are counted as none, and a file that counts none is rejected. */
  lemma TooManyLocationsRejected(records: seq<Record>, builtAt: Int64, segments: seq<Segment>, locations: seq<Location>,
                                 strings: seq<Text>, raws: seq<Raw>)
    requires records != [] && BuiltFrom(records, segments, locations, strings, raws)
    requires |segments| < ADDRESS_COUNT && |locations| == 0x1_0000
    ensures ParseBytes(Serialise(builtAt, segments, raws, strings, false)).Err?
  {
    hide Header, SegmentTable, RawTable, StringTable, U32, ParseBytes, Serialise, Tabled, RawsOf, Sorted;
    RawsCount(locations, strings, raws);
    SerialiseParts(builtAt, segments, raws, strings);
    NoLocationsRejected(builtAt, segments, RawTable(raws, false) + (U32(|strings|) + StringTable(strings)), false);
  }

  /** With more than 65536 strings some location of the table is read back as another one. */
  lemma TooManyStringsMisread(records: seq<Record>, builtAt: Int64, segments: seq<Segment>, locations: seq<Location>,
                              strings: seq<Text>, raws: seq<Raw>)
    requires Ordered(records) && BuiltFrom(records, segments, locations, strings, raws)
    requires |segments| < ADDRESS_COUNT && |locations| <= 0xFFFF && |strings| > 0x1_0000
    ensures !Faithful(records, ParseBytes(Serialise(builtAt, segments, raws, strings, false)))
  {
    RawsCount(locations, strings, raws);
    var db := ParsesWhenCountsFit(records, builtAt, segments, locations, strings, raws);
    var r, i := VictimRecord(records, locations, strings);
    VictimMisread(records, locations, strings, raws, i);
    hide Serialise, ParseBytes, RawsOf;
    VictimAnswer(records, segments, locations, strings, r, i);
    assert ScanLookup(db, V4(r.start)) == Some(db.locations[i]);
  }

  /** At the start of a record the records answer its location, and the table holds a segment of that location. */
  lemma VictimAnswer(records: seq<Record>, segments: seq<Segment>, locations: seq<Location>, strings: seq<Text>, r: Record, i: nat)
    requires Ordered(records) && Compacted(records, segments, locations) && Tabled(records, locations, strings)
    requires r in records && r.start <= r.end && i < |locations| && locations[i] == LocOf(r)
    ensures ScanRecords(records, V4(r.start)) == Some(locations[i])
    ensures var s := Scan(segments, r.start); s.Some? && s.value.loc == i
  {
    assert RecordAt(records, r.start, locations[i]);
    var expected := ScanRecords(records, V4(r.start));
    RecordAtUnique(records, r.start, locations[i], expected.value);
    assert SegmentAt(segments, locations, r.start, locations[i]);
    var s :| s in segments && InSegment(s, r.start) && locations[s.loc] == locations[i];
    var k :| 0 <= k < |segments| && segments[k] == s;
    ScanFinds(segments, k, r.start);
  }

  /** Some location uses the string at index 65536. */
  lemma VictimRecord(records: seq<Record>, locations: seq<Location>, strings: seq<Text>) returns (r: Record, i: nat)
    requires Ordered(records) && Tabled(records, locations, strings) && |strings| > 0x1_0000
    ensures r in records && r.start <= r.end && i < |locations| && locations[i] == LocOf(r)
    ensures strings[0x1_0000] in FieldsOf(locations[i])
  {
    var t := strings[0x1_0000];
    assert t in SetOf(strings);
    r :| r in records && t in FieldsOf(LocOf(r));
    assert LocOf(r) in SetOf(locations);
    i :| 0 <= i < |locations| && locations[i] == LocOf(r);
  }

  /** Index 65536 is cut to 0, where the empty string stands. */
  lemma VictimMisread(records: seq<Record>, locations: seq<Location>, strings: seq<Text>, raws: seq<Raw>, i: nat)
    requires Tabled(records, locations, strings) && RawsOf(locations, strings, raws)
    requires i < |raws| && |strings| > 0x1_0000 && strings[0x1_0000] in FieldsOf(locations[i])
    ensures RawOk(raws[i], |strings|) ==> Resolve(raws[i], strings) != locations[i]
  {
    var l, t := locations[i], strings[0x1_0000];
    IndexOfInjective(strings, t, 0x1_0000);
    assert t != [];
    assert forall x <- FieldsOf(l) :: x in SetOf(strings);
  }

  lemma {:induction false} SortedStart(segments: seq<Segment>, i: nat)
    requires Sorted(segments) && i < |segments|
    ensures i <= segments[i].start
  {
    if i > 0 {
      SortedStart(segments, i - 1);
      assert segments[i - 1] in segments;
    }
  }

  /** A table with one segment for every address overflows its 32-bit count to zero. */
  lemma FullTableUnread(records: seq<Record>, builtAt: Int64, segments: seq<Segment>, locations: seq<Location>,
                        strings: seq<Text>, raws: seq<Raw>)
    requires Ordered(records) && records != [] && BuiltFrom(records, segments, locations, strings, raws)
    requires |segments| >= ADDRESS_COUNT
    ensures !Faithful(records, ParseBytes(Serialise(builtAt, segments, raws, strings, false)))
  {
    hide Header, SegmentTable, RawTable, StringTable, U32, ParseBytes, Serialise, Tabled, RawsOf, Faithful, Ordered, R32;
    SortedStart(segments, |segments| - 1);
    assert segments[|segments| - 1] in segments;
    SerialiseParts(builtAt, segments, raws, strings);
    EmptyUnfaithful(records, builtAt, |raws| % 0x1_0000,
                    SegmentTable(segments) + (RawTable(raws, false) + (U32(|strings|) + StringTable(strings))));
  }

  lemma EmptyUnfaithful(records: seq<Record>, builtAt: Int64, locCount: Word16, rest: seq<Byte>)
    requires records != [] && Ordered(records)
    ensures !Faithful(records, ParseBytes(Header(builtAt, 0, locCount, false) + rest))
  {
    var data := Header(builtAt, 0, locCount, false) + rest;
    HeaderReads(builtAt, 0, locCount, false, rest);
    NoSegmentsParsed(data);
    hide ParseBytes, Header, R32;
    var r := records[0];
    assert r in records;
    assert RecordAt(records, r.start, LocOf(r));
    assert ScanRecords(records, V4(r.start)).Some?;
  }

  lemma NoSegmentsParsed(data: seq<Byte>)
    requires |data| >= HEADER_SIZE && R32(data[20..]) == 0
    ensures ParseBytes(data).Ok? ==> ParseBytes(data).value.segments == []
  {
  }

  /**
   Building and parsing keep every answer if and only if there are at most 65535 distinct locations, at most
   65536 distinct strings (the empty one counted) and fewer than 2^32 merged segments.
   */
  lemma RoundTrip(records: seq<Record>, builtAt: Int64, segments: seq<Segment>, locations: seq<Location>,
                  strings: seq<Text>, raws: seq<Raw>)
    requires Accepted(records) && BuiltFrom(records, segments, locations, strings, raws)
    ensures Faithful(records, ParseBytes(Serialise(builtAt, segments, raws, strings, false))) <==> FitsFormat(records)
  {
    SizesOfTables(records, locations, strings);
    hide Faithful, Ordered, Tabled, RawsOf, Serialise, ParseBytes, LocationsOf, StringsOf;
    if |segments| >= ADDRESS_COUNT {
      FullTableUnread(records, builtAt, segments, locations, strings, raws);
    } else if |locations| > 0xFFFF {
      TooManyLocationsRejected(records, builtAt, segments, locations, strings, raws);
      ErrIsUnfaithful(records, ParseBytes(Serialise(builtAt, segments, raws, strings, false)));
    } else if |strings| > 0x1_0000 {
      TooManyStringsMisread(records, builtAt, segments, locations, strings, raws);
    } else {
      FitMeansFaithful(records, builtAt, segments, locations, strings, raws);
    }
  }

  lemma ErrIsUnfaithful(records: seq<Record>, parsed: Result<Db, ParseError>)
    requires parsed.Err?
    ensures !Faithful(records, parsed)
  {
  }

  /** The whole pipeline: build, parse, binary search. Whenever the counts fit, the search is the scan of the records. */
  method BuildParseLookup(records: seq<Record>, builtAt: Int64, ip: Ip) returns (r: Result<Option<Location>, BuildError>)
    requires FitsFormat(records)
    ensures r.Ok? <==> Accepted(records)
    ensures r.Ok? ==> r.value == ScanRecords(records, ip)
  {
    hide Faithful, FitsFormat, Ordered, Tabled, Compacted, RawsOf, Serialise, ParseBytes, LocationsOf, StringsOf;
    var built := BuildRecords(records, builtAt);
    if built.Err? {
      return Err(built.error);
    }
    ghost var segments, locations, strings, raws :|
      BuiltFrom(records, segments, locations, strings, raws) &&
      built.value == Serialise(builtAt, segments, raws, strings, false);
    RoundTrip(records, builtAt, segments, locations, strings, raws);
    var parsed := IpdbParse.Parse(built.value);
    FaithfulAt(records, parsed, ip);
    ParsedSorted(records, builtAt, segments, locations, strings, raws);
    var found := Lookup(parsed.value, ip);
    r := Ok(found);
  }

  lemma FaithfulAt(records: seq<Record>, parsed: Result<Db, ParseError>, ip: Ip)
    requires Faithful(records, parsed)
    ensures parsed.Ok? && RefsOk(parsed.value) ==> ScanLookup(parsed.value, ip) == ScanRecords(records, ip)
    ensures parsed.Ok?
  {
  }

  lemma ParsedSorted(records: seq<Record>, builtAt: Int64, segments: seq<Segment>, locations: seq<Location>,
                     strings: seq<Text>, raws: seq<Raw>)
    requires FitsFormat(records) && BuiltFrom(records, segments, locations, strings, raws)
    ensures var parsed := ParseBytes(Serialise(builtAt, segments, raws, strings, false));
      parsed.Ok? && Sorted(parsed.value.segments)
  {
    SizesOfTables(records, locations, strings);
    var db := ParsesWhenCountsFit(records, builtAt, segments, locations, strings, raws);
  }
}
