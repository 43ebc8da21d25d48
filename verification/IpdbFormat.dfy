/** The binary file format: little-endian words, the byte layout, and the bounded parser. */
module IpdbFormat {
  import opened Collections
  import opened Cidr
  import opened Ipdb

  const MAGIC: Text := [0x41, 0x55, 0x49, 0x50, 0x44, 0x42, 0x30, 0x31]
  const VERSION := 2
  const LEGACY_VERSION := 1
  const HEADER_SIZE := 32

  type Int64 = i: int | -0x8000_0000_0000_0000 <= i < 0x8000_0000_0000_0000

  /** Four string indices, cut to 16 bits. */
  datatype Raw = Raw(country: Word16, region: Word16, city: Word16, isp: Word16)

  // ----- little-endian words

  function U16(v: Word16): (b: seq<Byte>)
    ensures |b| == 2
  {
    var high := v / 256;
    assert 0 <= high < 256 by {
      assert v == 256 * high + v % 256;
    }
    [v % 256, high]
  }

  function U32(v: Address): (b: seq<Byte>)
    ensures |b| == 4
  {
    U16(v % 0x1_0000) + U16(v / 0x1_0000)
  }

  function U64(v: Int64): (b: seq<Byte>)
    ensures |b| == 8
  {
    var u := if v < 0 then v + 0x1_0000_0000_0000_0000 else v;
    U32(u % ADDRESS_COUNT) + U32(u / ADDRESS_COUNT)
  }

  function R16(b: seq<Byte>): Word16
    requires |b| >= 2
  {
    (b[0] as int) + 256 * (b[1] as int)
  }

  function R32(b: seq<Byte>): Address
    requires |b| >= 4
  {
    (R16(b) as int) + 0x1_0000 * (R16(b[2..]) as int)
  }

  function R64(b: seq<Byte>): Int64
    requires |b| >= 8
  {
    var u := (R32(b) as int) + ADDRESS_COUNT * (R32(b[4..]) as int);
    if u >= 0x8000_0000_0000_0000 then u - 0x1_0000_0000_0000_0000 else u
  }

  lemma ReadU16(v: Word16, rest: seq<Byte>)
    ensures R16(U16(v) + rest) == v
  {
  }

  lemma ReadU32(v: Address, rest: seq<Byte>)
    ensures R32(U32(v) + rest) == v
  {
    assert (U32(v) + rest)[2..] == U16(v / 0x1_0000) + rest;
    assert U32(v) + rest == U16(v % 0x1_0000) + (U16(v / 0x1_0000) + rest);
    ReadU16(v % 0x1_0000, U16(v / 0x1_0000) + rest);
    ReadU16(v / 0x1_0000, rest);
  }

  lemma ReadU64(v: Int64, rest: seq<Byte>)
    ensures R64(U64(v) + rest) == v
  {
    var u := if v < 0 then v + 0x1_0000_0000_0000_0000 else v;
    var low, high := u % ADDRESS_COUNT, u / ADDRESS_COUNT;
    assert (U64(v) + rest)[4..] == U32(high) + rest;
    assert U64(v) + rest == U32(low) + (U32(high) + rest);
    ReadU32(low, U32(high) + rest);
    ReadU32(high, rest);
  }

  // ----- the layout

  function SegmentBytes(s: Segment): (b: seq<Byte>)
    ensures |b| == 10
  {
    U32(s.start) + U32(s.end) + U16(s.loc)
  }

  function RawBytes(raw: Raw, legacy: bool): (b: seq<Byte>)
    ensures |b| == if legacy then 6 else 8
  {
    U16(raw.country) + U16(raw.region) + U16(raw.city) + if legacy then [] else U16(raw.isp)
  }

  function StringBytes(s: Text): (b: seq<Byte>)
    requires |s| < 0x1_0000
    ensures |b| == 2 + |s|
  {
    U16(|s|) + s
  }

  function SegmentTable(segments: seq<Segment>): (b: seq<Byte>)
    ensures |b| == 10 * |segments|
  {
    if segments == [] then [] else SegmentBytes(segments[0]) + SegmentTable(segments[1..])
  }

  function TableSize(n: nat, legacy: bool): nat {
    if legacy then 6 * n else 8 * n
  }

  function RawTable(raws: seq<Raw>, legacy: bool): (b: seq<Byte>)
    ensures |b| == TableSize(|raws|, legacy)
  {
    if raws == [] then [] else RawBytes(raws[0], legacy) + RawTable(raws[1..], legacy)
  }

  function StringTable(pool: seq<Text>): seq<Byte>
    requires forall s <- pool :: |s| < 0x1_0000
  {
    if pool == [] then [] else StringBytes(pool[0]) + StringTable(pool[1..])
  }

  function Header(builtAt: Int64, segCount: Address, locCount: Word16, legacy: bool): (b: seq<Byte>)
    ensures |b| == HEADER_SIZE
  {
    MAGIC + U32(if legacy then LEGACY_VERSION else VERSION) + U64(builtAt) + U32(segCount) + U16(locCount) +
    [0, 0, 0, 0, 0, 0]
  }

  /** The file as written: the counts are cut to the width of their header fields. */
  function Serialise(builtAt: Int64, segments: seq<Segment>, raws: seq<Raw>, pool: seq<Text>, legacy: bool): seq<Byte>
    requires |pool| < ADDRESS_COUNT && forall s <- pool :: |s| < 0x1_0000
  {
    Header(builtAt, |segments| % ADDRESS_COUNT, |raws| % 0x1_0000, legacy) + SegmentTable(segments) +
    RawTable(raws, legacy) + U32(|pool|) + StringTable(pool)
  }

  // ----- the parser

  datatype ParseError =
    | TooShort | BadMagic | BadVersion | SegmentsTruncated | LocationsTruncated | PoolTruncated
    | StringTruncated(index: nat) | BadStringRef(index: nat) | BadLocationRef(index: nat)

  function SegmentOf(b: seq<Byte>): Segment
    requires |b| >= 10
  {
    Segment(R32(b), R32(b[4..]), R16(b[8..]))
  }

  function RawOf(b: seq<Byte>, legacy: bool): Raw
    requires |b| >= if legacy then 6 else 8
  {
    Raw(R16(b), R16(b[2..]), R16(b[4..]), if legacy then 0 else R16(b[6..]))
  }

  function ReadSegments(b: seq<Byte>, n: nat): (r: seq<Segment>)
    requires |b| >= 10 * n
    ensures |r| == n
    decreases n
  {
    if n == 0 then [] else [SegmentOf(b)] + ReadSegments(b[10..], n - 1)
  }

  function ReadRaws(b: seq<Byte>, n: nat, legacy: bool): (r: seq<Raw>)
    requires |b| >= TableSize(n, legacy)
    ensures |r| == n
    decreases n
  {
    if n == 0 then []
    else [RawOf(b, legacy)] + ReadRaws(b[TableSize(1, legacy)..], n - 1, legacy)
  }

  /** n strings from the front of b; the error names the string at which the bytes run out. */
  function ReadPool(b: seq<Byte>, n: nat, index: nat): (r: Result<seq<Text>, ParseError>)
    ensures r.Ok? ==> |r.value| == n
    decreases n
  {
    if n == 0 then Ok([])
    else if |b| < 2 || |b| < 2 + R16(b) then Err(StringTruncated(index))
    else
      match ReadPool(b[2 + R16(b)..], n - 1, index + 1)
      case Err(e) => Err(e)
      case Ok(rest) => Ok([b[2..2 + R16(b)]] + rest)
  }

  predicate RawOk(raw: Raw, poolSize: nat) {
    raw.country < poolSize && raw.region < poolSize && raw.city < poolSize && raw.isp < poolSize
  }

  function Resolve(raw: Raw, pool: seq<Text>): Location
    requires RawOk(raw, |pool|)
  {
    Location(pool[raw.country], pool[raw.region], pool[raw.city], pool[raw.isp])
  }

  /** All locations resolved, or the index of the first one with a string index out of range. */
  function ResolveAll(raws: seq<Raw>, pool: seq<Text>, index: nat): (r: Result<seq<Location>, ParseError>)
    ensures r.Ok? ==> |r.value| == |raws|
  {
    if raws == [] then Ok([])
    else if !RawOk(raws[0], |pool|) then Err(BadStringRef(index))
    else
      match ResolveAll(raws[1..], pool, index + 1)
      case Err(e) => Err(e)
      case Ok(rest) => Ok([Resolve(raws[0], pool)] + rest)
  }

  function FirstBadSegment(segments: seq<Segment>, locCount: nat, index: nat): (r: Option<nat>)
    ensures r.None? <==> forall s <- segments :: s.loc < locCount
  {
    if segments == [] then None
    else if segments[0].loc >= locCount then Some(index)
    else FirstBadSegment(segments[1..], locCount, index + 1)
  }

  function ParsePool(builtAt: Int64, segments: seq<Segment>, raws: seq<Raw>, b: seq<Byte>, legacy: bool): (r: Result<Db, ParseError>)
    ensures r.Ok? ==> RefsOk(r.value)
  {
    if |b| < 4 then Err(PoolTruncated)
    else
      match ReadPool(b[4..], R32(b), 0)
      case Err(e) => Err(e)
      case Ok(pool) =>
        match ResolveAll(raws, pool, 0)
        case Err(e) => Err(e)
        case Ok(locations) =>
          match FirstBadSegment(segments, |raws|, 0)
          case Some(i) => Err(BadLocationRef(i))
          case None => Ok(Db(builtAt, segments, locations, !legacy))
  }

  /** What the parser makes of a byte string. A parsed database never has a dangling location. */
  function ParseBytes(data: seq<Byte>): (r: Result<Db, ParseError>)
    ensures r.Ok? ==> RefsOk(r.value)
  {
    if |data| < HEADER_SIZE then Err(TooShort)
    else if data[..8] != MAGIC then Err(BadMagic)
    else if R32(data[8..]) != VERSION && R32(data[8..]) != LEGACY_VERSION then Err(BadVersion)
    else
      var legacy := R32(data[8..]) == LEGACY_VERSION;
      var segCount, locCount := R32(data[20..]), R16(data[24..]);
      var body := data[HEADER_SIZE..];
      if |body| < 10 * segCount then Err(SegmentsTruncated)
      else
        var segments, afterSegments := ReadSegments(body, segCount), body[10 * segCount..];
        if |afterSegments| < TableSize(locCount, legacy) then Err(LocationsTruncated)
        else
          ParsePool(R64(data[12..]), segments, ReadRaws(afterSegments, locCount, legacy),
                    afterSegments[TableSize(locCount, legacy)..], legacy)
  }

  // ----- reading back what was written

  lemma ReadSegmentBytes(s: Segment, rest: seq<Byte>)
    ensures SegmentOf(SegmentBytes(s) + rest) == s
  {
    var b := SegmentBytes(s) + rest;
    assert b == U32(s.start) + (U32(s.end) + U16(s.loc) + rest);
    assert b[4..] == U32(s.end) + (U16(s.loc) + rest);
    assert b[8..] == U16(s.loc) + rest;
    ReadU32(s.start, U32(s.end) + U16(s.loc) + rest);
    ReadU32(s.end, U16(s.loc) + rest);
    ReadU16(s.loc, rest);
  }

  lemma ReadRawBytes(raw: Raw, legacy: bool, rest: seq<Byte>)
    requires legacy ==> raw.isp == 0
    ensures RawOf(RawBytes(raw, legacy) + rest, legacy) == raw
  {
    var b := RawBytes(raw, legacy) + rest;
    var last := if legacy then [] else U16(raw.isp);
    assert b == U16(raw.country) + (U16(raw.region) + U16(raw.city) + last + rest);
    assert b[2..] == U16(raw.region) + (U16(raw.city) + last + rest);
    assert b[4..] == U16(raw.city) + (last + rest);
    assert b[6..] == last + rest;
    ReadU16(raw.country, U16(raw.region) + U16(raw.city) + last + rest);
    ReadU16(raw.region, U16(raw.city) + last + rest);
    ReadU16(raw.city, last + rest);
    ReadU16(raw.isp, rest);
  }

  lemma {:induction false} ReadSegmentTable(segments: seq<Segment>, rest: seq<Byte>)
    ensures ReadSegments(SegmentTable(segments) + rest, |segments|) == segments
  {
    if segments != [] {
      var s, tail := segments[0], segments[1..];
      assert SegmentTable(segments) + rest == SegmentBytes(s) + (SegmentTable(tail) + rest);
      ReadSegmentBytes(s, SegmentTable(tail) + rest);
      ReadSegmentTable(tail, rest);
      assert (SegmentTable(segments) + rest)[10..] == SegmentTable(tail) + rest;
    }
  }

  lemma {:induction false} ReadRawTable(raws: seq<Raw>, legacy: bool, rest: seq<Byte>)
    requires legacy ==> forall raw <- raws :: raw.isp == 0
    ensures ReadRaws(RawTable(raws, legacy) + rest, |raws|, legacy) == raws
  {
    if raws != [] {
      var raw, tail := raws[0], raws[1..];
      assert RawTable(raws, legacy) + rest == RawBytes(raw, legacy) + (RawTable(tail, legacy) + rest);
      ReadRawBytes(raw, legacy, RawTable(tail, legacy) + rest);
      ReadRawTable(tail, legacy, rest);
      assert (RawTable(raws, legacy) + rest)[TableSize(1, legacy)..] == RawTable(tail, legacy) + rest;
    }
  }

  lemma {:induction false} ReadStringTable(pool: seq<Text>, rest: seq<Byte>, index: nat)
    requires forall s <- pool :: |s| < 0x1_0000
    ensures ReadPool(StringTable(pool) + rest, |pool|, index) == Ok(pool)
    decreases |pool|
  {
    if pool != [] {
      var s, tail := pool[0], pool[1..];
      assert StringTable(pool) + rest == StringBytes(s) + (StringTable(tail) + rest);
      ReadFirstString(s, StringTable(tail) + rest);
      ReadStringTable(tail, rest, index + 1);
      hide StringBytes, R16, StringTable;
      assert pool == [s] + tail;
    }
  }

  lemma ReadFirstString(s: Text, rest: seq<Byte>)
    requires |s| < 0x1_0000
    ensures var b := StringBytes(s) + rest;
      |b| >= 2 && R16(b) == |s| && |b| >= 2 + |s| && b[2..2 + |s|] == s && b[2 + |s|..] == rest
  {
    assert StringBytes(s) + rest == U16(|s|) + (s + rest);
    ReadU16(|s|, s + rest);
  }

  lemma {:induction false} ResolveAllOk(raws: seq<Raw>, pool: seq<Text>, index: nat)
    requires forall raw <- raws :: RawOk(raw, |pool|)
    ensures var r := ResolveAll(raws, pool, index);
      r.Ok? && forall i :: 0 <= i < |raws| ==> r.value[i] == Resolve(raws[i], pool)
  {
    if raws != [] {
      ResolveAllOk(raws[1..], pool, index + 1);
    }
  }

  lemma HeaderReads(builtAt: Int64, segCount: Address, locCount: Word16, legacy: bool, rest: seq<Byte>)
    ensures var data := Header(builtAt, segCount, locCount, legacy) + rest;
      && data[..8] == MAGIC
      && R32(data[8..]) == (if legacy then LEGACY_VERSION else VERSION)
      && R64(data[12..]) == builtAt
      && R32(data[20..]) == segCount
      && R16(data[24..]) == locCount
      && data[HEADER_SIZE..] == rest
  {
    hide U16, U32, U64, R16, R32, R64;
    var version := if legacy then LEGACY_VERSION else VERSION;
    var zeros: seq<Byte> := [0, 0, 0, 0, 0, 0];
    var data := Header(builtAt, segCount, locCount, legacy) + rest;
    var t24 := zeros + rest;
    var t20 := U16(locCount) + t24;
    var t12 := U32(segCount) + t20;
    var t8 := U64(builtAt) + t12;
    assert data[24..] == t20;
    assert data[20..] == t12;
    assert data[12..] == t8;
    assert data[8..] == U32(version) + t8;
    ReadU16(locCount, t24);
    ReadU32(segCount, t20);
    ReadU64(builtAt, t12);
    ReadU32(version, t8);
  }

  /** Parsing a file up to its string pool; the counts in the header are the cut ones. */
  lemma ParseUpToPool(builtAt: Int64, segments: seq<Segment>, locCount: Word16, raws: seq<Raw>, rest: seq<Byte>, legacy: bool)
    requires |segments| < ADDRESS_COUNT && locCount == |raws| && (legacy ==> forall raw <- raws :: raw.isp == 0)
    ensures ParseBytes(Header(builtAt, |segments|, locCount, legacy) + (SegmentTable(segments) + (RawTable(raws, legacy) + rest)))
         == ParsePool(builtAt, segments, raws, rest, legacy)
  {
    var afterSegments := RawTable(raws, legacy) + rest;
    var body := SegmentTable(segments) + afterSegments;
    HeaderReads(builtAt, |segments|, locCount, legacy, body);
    ReadSegmentTable(segments, afterSegments);
    ReadRawTable(raws, legacy, rest);
    assert body[10 * |segments|..] == afterSegments;
    assert afterSegments[TableSize(|raws|, legacy)..] == rest;
  }

  /** Reading back a complete file, with or without the carrier column, whatever follows it. */
  lemma ParseOfSerialise(builtAt: Int64, segments: seq<Segment>, raws: seq<Raw>, pool: seq<Text>, legacy: bool, trailing: seq<Byte>)
    requires |segments| < ADDRESS_COUNT && |raws| < 0x1_0000
    requires |pool| < ADDRESS_COUNT && forall s <- pool :: |s| < 0x1_0000
    requires forall raw <- raws :: RawOk(raw, |pool|) && (legacy ==> raw.isp == 0)
    requires forall s <- segments :: s.loc < |raws|
    ensures var r := ParseBytes(Serialise(builtAt, segments, raws, pool, legacy) + trailing);
      && r.Ok? && r.value.builtAt == builtAt && r.value.segments == segments && r.value.hasIsp == !legacy
      && |r.value.locations| == |raws|
      && forall i :: 0 <= i < |raws| ==> r.value.locations[i] == Resolve(raws[i], pool)
  {
    hide ParseBytes, Header, SegmentTable, RawTable, StringTable, U32, R32;
    var rest := U32(|pool|) + (StringTable(pool) + trailing);
    assert Serialise(builtAt, segments, raws, pool, legacy) + trailing ==
      Header(builtAt, |segments|, |raws|, legacy) + (SegmentTable(segments) + (RawTable(raws, legacy) + rest));
    ParseUpToPool(builtAt, segments, |raws|, raws, rest, legacy);
    ReadU32(|pool|, StringTable(pool) + trailing);
    assert rest[4..] == StringTable(pool) + trailing;
    ReadStringTable(pool, trailing, 0);
    assert FirstBadSegment(segments, |raws|, 0).None?;
    ResolveAllOk(raws, pool, 0);
  }

  /** A header that counts no locations is never accepted together with segments. */
  lemma NoLocationsRejected(builtAt: Int64, segments: seq<Segment>, rest: seq<Byte>, legacy: bool)
    requires 0 < |segments| < ADDRESS_COUNT
    ensures ParseBytes(Header(builtAt, |segments|, 0, legacy) + (SegmentTable(segments) + rest)).Err?
  {
    hide ParseBytes, Header, SegmentTable, ReadPool, R32;
    assert RawTable([], legacy) == [];
    assert [] + rest == rest;
    ParseUpToPool(builtAt, segments, 0, [], rest, legacy);
    assert ResolveAll([], [], 0) == Ok([]);
    assert segments[0] in segments;
  }

  // ----- the layout of a file

  /** The bytes at a place hold a number, lowest byte first. */
  ghost predicate Holds(data: seq<Byte>, at: nat, value: nat, size: nat)
    decreases size
  {
    if size == 0 then value == 0
    else at < |data| && data[at] == value % 256 && Holds(data, at + 1, value / 256, size - 1)
  }

  lemma HoldsWord(data: seq<Byte>, at: nat, v: Word16)
    requires at + 2 <= |data| && data[at..at + 2] == U16(v)
    ensures Holds(data, at, v, 2)
  {
    assert data[at..at + 2][0] == data[at] && data[at..at + 2][1] == data[at + 1];
    assert v / 256 < 256 && (v / 256) / 256 == 0;
    assert Holds(data, at + 2, (v / 256) / 256, 0);
    assert Holds(data, at + 1, v / 256, 1);
  }

  /** A header: the magic, then version, time, number of segments and number of locations at their places. */
  lemma HeaderLayout(builtAt: Int64, segCount: Address, locCount: Word16, legacy: bool)
    ensures var h := Header(builtAt, segCount, locCount, legacy);
      && h[..8] == MAGIC && h[8..12] == U32(if legacy then 1 else 2) && h[12..20] == U64(builtAt)
      && h[20..24] == U32(segCount) && h[24..26] == U16(locCount) && h[26..] == [0, 0, 0, 0, 0, 0]
  {
    hide U16, U32, U64;
  }

  /** The layout of a segment: first address, last address, index of the location. */
  lemma SegmentLayout(s: Segment)
    ensures var b := SegmentBytes(s); b[..4] == U32(s.start) && b[4..8] == U32(s.end) && Holds(b, 8, s.loc, 2)
  {
    var b := SegmentBytes(s);
    hide U32, U16;
    assert b[..4] == U32(s.start) && b[4..8] == U32(s.end) && b[8..10] == U16(s.loc);
    HoldsWord(b, 8, s.loc);
  }

  /** The layout of a location: country, region, city and, in the present version, operator, as string indices. */
  lemma LocationLayout(raw: Raw, legacy: bool)
    ensures var b := RawBytes(raw, legacy);
      Holds(b, 0, raw.country, 2) && Holds(b, 2, raw.region, 2) && Holds(b, 4, raw.city, 2) && (legacy || Holds(b, 6, raw.isp, 2))
  {
    var b := RawBytes(raw, legacy);
    hide U16;
    assert b[0..2] == U16(raw.country) && b[2..4] == U16(raw.region) && b[4..6] == U16(raw.city);
    HoldsWord(b, 0, raw.country);
    HoldsWord(b, 2, raw.region);
    HoldsWord(b, 4, raw.city);
    if !legacy {
      assert b[6..8] == U16(raw.isp);
      HoldsWord(b, 6, raw.isp);
    }
  }

  /** A word of 32 bits, too, has its lowest byte first. */
  lemma WordLayout(v: Address)
    ensures Holds(U32(v), 0, v, 4)
  {
    var low, high := v % 0x1_0000, v / 0x1_0000;
    var b := U32(v);
    assert b[0] == low % 256 && b[1] == low / 256 && b[2] == high % 256 && b[3] == high / 256;
    WordBytes(v);
    assert Holds(b, 4, 0, 0);
    assert Holds(b, 3, high / 256, 1);
    assert Holds(b, 2, high, 2);
    assert Holds(b, 1, v / 256, 3);
  }

  lemma WordBytes(v: Address)
    ensures var low, high := v % 0x1_0000, v / 0x1_0000;
      && low % 256 == v % 256 && low / 256 == v / 256 % 256 && v / 256 / 256 == high
      && high / 256 % 256 == high / 256 && high / 256 / 256 == 0
  {
  }
}
