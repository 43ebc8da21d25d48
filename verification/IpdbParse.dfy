/** The parser as the source runs it: an offset advanced through the bytes. */
module IpdbParse {
  import opened Collections
  import opened Ipdb
  import opened IpdbFormat

  /** A result with the items already read put in front. */
  function Prepend<T>(front: seq<T>, r: Result<seq<T>, ParseError>): Result<seq<T>, ParseError> {
    match r
    case Ok(rest) => Ok(front + rest)
    case Err(e) => Err(e)
  }

  lemma PrependStep<T>(front: seq<T>, x: T, r: Result<seq<T>, ParseError>)
    ensures Prepend(front, Prepend([x], r)) == Prepend(front + [x], r)
  {
    if r.Ok? {
      assert front + ([x] + r.value) == (front + [x]) + r.value;
    }
  }

  lemma PrependNil<T>(r: Result<seq<T>, ParseError>)
    ensures Prepend([], r) == r
  {
    if r.Ok? {
      assert [] + r.value == r.value;
    }
  }

  lemma SegmentStep(data: seq<Byte>, off: nat, n: nat)
    requires 0 < n && off + 10 * n <= |data|
    ensures ReadSegments(data[off..], n) == [SegmentOf(data[off..])] + ReadSegments(data[off + 10..], n - 1)
  {
    assert data[off..][10..] == data[off + 10..];
  }

  lemma RawStep(data: seq<Byte>, off: nat, n: nat, legacy: bool)
    requires 0 < n && off + TableSize(n, legacy) <= |data|
    ensures ReadRaws(data[off..], n, legacy) ==
      [RawOf(data[off..], legacy)] + ReadRaws(data[off + TableSize(1, legacy)..], n - 1, legacy)
  {
    assert data[off..][TableSize(1, legacy)..] == data[off + TableSize(1, legacy)..];
  }

  lemma PoolStep(data: seq<Byte>, off: nat, n: nat, index: nat)
    requires 0 < n && off <= |data|
    ensures ReadPool(data[off..], n, index) ==
      if |data| < off + 2 || |data| < off + 2 + R16(data[off..]) then Err(StringTruncated(index))
      else
        var end := off + 2 + R16(data[off..]);
        Prepend([data[off + 2..end]], ReadPool(data[end..], n - 1, index + 1))
  {
    if |data| >= off + 2 && |data| >= off + 2 + R16(data[off..]) {
      var end := off + 2 + R16(data[off..]);
      assert data[off..][2..end - off] == data[off + 2..end];
      assert data[off..][end - off..] == data[end..];
    }
  }

  lemma ResolveStep(raws: seq<Raw>, pool: seq<Text>, i: nat)
    requires i < |raws|
    ensures ResolveAll(raws[i..], pool, i) ==
      if !RawOk(raws[i], |pool|) then Err(BadStringRef(i))
      else Prepend([Resolve(raws[i], pool)], ResolveAll(raws[i + 1..], pool, i + 1))
  {
    assert raws[i..][1..] == raws[i + 1..];
  }

  method ReadSegmentLoop(data: seq<Byte>, off: nat, segCount: nat) returns (segments: seq<Segment>)
    requires off + 10 * segCount <= |data|
    ensures segments == ReadSegments(data[off..], segCount)
  {
    hide R16, R32;
    segments := [];
    var at := off;
    for i := 0 to segCount
      invariant at == off + 10 * i
      invariant ReadSegments(data[off..], segCount) == segments + ReadSegments(data[at..], segCount - i)
    {
      hide ReadSegments;
      SegmentStep(data, at, segCount - i);
      var b := data[at..];
      segments := segments + [Segment(R32(b), R32(b[4..]), R16(b[8..]))];
      at := at + 10;
    }
  }

  method ReadRawLoop(data: seq<Byte>, off: nat, locCount: nat, legacy: bool) returns (raws: seq<Raw>)
    requires off + TableSize(locCount, legacy) <= |data|
    ensures raws == ReadRaws(data[off..], locCount, legacy)
  {
    hide R16;
    raws := [];
    var at := off;
    for i := 0 to locCount
      invariant at == off + TableSize(i, legacy)
      invariant ReadRaws(data[off..], locCount, legacy) == raws + ReadRaws(data[at..], locCount - i, legacy)
    {
      hide ReadRaws;
      RawStep(data, at, locCount - i, legacy);
      var b := data[at..];
      var isp: Word16 := 0;
      if !legacy {
        isp := R16(b[6..]);
      }
      raws := raws + [Raw(R16(b), R16(b[2..]), R16(b[4..]), isp)];
      at := at + TableSize(1, legacy);
    }
  }

  method ReadPoolLoop(data: seq<Byte>, start: nat, strCount: nat) returns (r: Result<seq<Text>, ParseError>)
    requires start <= |data|
    ensures r == ReadPool(data[start..], strCount, 0)
  {
    var pool: seq<Text> := [];
    var off := start;
    PrependNil(ReadPool(data[start..], strCount, 0));
    for i := 0 to strCount
      invariant start <= off <= |data|
      invariant ReadPool(data[start..], strCount, 0) == Prepend(pool, ReadPool(data[off..], strCount - i, i))
    {
      hide ReadPool, R16;
      PoolStep(data, off, strCount - i, i);
      if |data| < off + 2 {
        return Err(StringTruncated(i));
      }
      var n := R16(data[off..]);
      off := off + 2;
      if |data| < off + n {
        return Err(StringTruncated(i));
      }
      PrependStep(pool, data[off..off + n], ReadPool(data[off + n..], strCount - i - 1, i + 1));
      pool := pool + [data[off..off + n]];
      off := off + n;
    }
    r := Ok(pool);
    assert pool + [] == pool;
  }

  method ResolveLoop(raws: seq<Raw>, pool: seq<Text>) returns (r: Result<seq<Location>, ParseError>)
    ensures r == ResolveAll(raws, pool, 0)
  {
    var locations: seq<Location> := [];
    PrependNil(ResolveAll(raws, pool, 0));
    assert raws[0..] == raws;
    for i := 0 to |raws|
      invariant ResolveAll(raws, pool, 0) == Prepend(locations, ResolveAll(raws[i..], pool, i))
    {
      hide ResolveAll;
      ResolveStep(raws, pool, i);
      var raw := raws[i];
      if raw.country >= |pool| || raw.region >= |pool| || raw.city >= |pool| || raw.isp >= |pool| {
        return Err(BadStringRef(i));
      }
      var loc := Location(pool[raw.country], pool[raw.region], pool[raw.city], pool[raw.isp]);
      PrependStep(locations, loc, ResolveAll(raws[i + 1..], pool, i + 1));
      locations := locations + [loc];
    }
    r := Ok(locations);
    assert locations + [] == locations;
  }

  method CheckRefsLoop(segments: seq<Segment>, locCount: nat) returns (bad: Option<nat>)
    ensures bad == FirstBadSegment(segments, locCount, 0)
  {
    assert segments[0..] == segments;
    for i := 0 to |segments|
      invariant FirstBadSegment(segments, locCount, 0) == FirstBadSegment(segments[i..], locCount, i)
    {
      if segments[i].loc >= locCount {
        return Some(i);
      }
      assert segments[i..][1..] == segments[i + 1..];
    }
    bad := None;
  }

  /** Every length is checked before it is read, so a truncated file is an error and never a smaller database. */
  method Parse(data: seq<Byte>) returns (r: Result<Db, ParseError>)
    ensures r == ParseBytes(data)
  {
    hide ReadSegments, ReadRaws, ReadPool, ResolveAll, FirstBadSegment, R16, R32, R64;
    if |data| < HEADER_SIZE {
      return Err(TooShort);
    }
    if data[..8] != MAGIC {
      return Err(BadMagic);
    }
    var version := R32(data[8..]);
    if version != VERSION && version != LEGACY_VERSION {
      return Err(BadVersion);
    }
    var legacy := version == LEGACY_VERSION;
    var builtAt := R64(data[12..]);
    var segCount, locCount := R32(data[20..]), R16(data[24..]);
    var off := HEADER_SIZE;
    if |data| < off + 10 * segCount {
      return Err(SegmentsTruncated);
    }
    var segments := ReadSegmentLoop(data, off, segCount);
    ghost var body := data[off..];
    off := off + 10 * segCount;
    assert body[10 * segCount..] == data[off..];
    if |data| < off + TableSize(locCount, legacy) {
      return Err(LocationsTruncated);
    }
    var raws := ReadRawLoop(data, off, locCount, legacy);
    assert data[off..][TableSize(locCount, legacy)..] == data[off + TableSize(locCount, legacy)..];
    off := off + TableSize(locCount, legacy);
    if |data| < off + 4 {
      return Err(PoolTruncated);
    }
    var strCount := R32(data[off..]);
    assert data[off..][4..] == data[off + 4..];
    off := off + 4;
    var pool := ReadPoolLoop(data, off, strCount);
    if pool.Err? {
      return Err(pool.error);
    }
    var locations := ResolveLoop(raws, pool.value);
    if locations.Err? {
      return Err(locations.error);
    }
    var bad := CheckRefsLoop(segments, locCount);
    if bad.Some? {
      return Err(BadLocationRef(bad.value));
    }
    r := Ok(Db(builtAt, segments, locations.value, version == VERSION));
  }
}
