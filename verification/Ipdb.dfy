/** The offline address database: its data model and the binary search. */
module Ipdb {
  import opened Collections
  import opened Cidr

  type Byte = b: int | 0 <= b < 256

  /** Strings are byte sequences, as the file format stores them. */
  type Text = seq<Byte>

  type Word16 = w: int | 0 <= w < 0x1_0000

  /** The UTF-8 bytes of the country name that carries provinces. */
  const CHINA: Text := [0xE4, 0xB8, 0xAD, 0xE5, 0x9B, 0xBD]

  datatype Location = Location(country: Text, region: Text, city: Text, isp: Text)

  datatype Segment = Segment(start: Address, end: Address, loc: Word16)

  datatype Db = Db(builtAt: int, segments: seq<Segment>, locations: seq<Location>, hasIsp: bool)

  /** Every segment names a location of the table: what the parser checks. */
  predicate RefsOk(db: Db) {
    forall s <- db.segments :: s.loc < |db.locations|
  }

  /** Segments are ascending and disjoint: what the builder checks. */
  ghost predicate Sorted(segments: seq<Segment>) {
    && (forall s <- segments :: s.start <= s.end)
    && (forall i, j :: 0 <= i < j < |segments| ==> segments[i].end < segments[j].start)
  }

  predicate InSegment(s: Segment, a: int) {
    s.start <= a <= s.end
  }

  datatype Ip = V4(addr: Address) | V6

  /** The plain reference search: the first segment that holds the address. */
  function Scan(segments: seq<Segment>, a: int): (r: Option<Segment>)
    ensures r.Some? ==> r.value in segments && InSegment(r.value, a)
    ensures r.None? ==> forall s <- segments :: !InSegment(s, a)
  {
    if segments == [] then None
    else if InSegment(segments[0], a) then Some(segments[0])
    else Scan(segments[1..], a)
  }

  /** What a database says of an address. */
  function LocationAt(db: Db, a: int): Option<Location>
    requires RefsOk(db)
  {
    match Scan(db.segments, a)
    case None => None
    case Some(s) => Some(db.locations[s.loc])
  }

  function ScanLookup(db: Db, ip: Ip): Option<Location>
    requires RefsOk(db)
  {
    match ip
    case V6 => None
    case V4(a) => LocationAt(db, a)
  }

  /** In a sorted table the scan finds the one segment that holds the address. */
  lemma ScanFinds(segments: seq<Segment>, i: nat, a: int)
    requires Sorted(segments) && i < |segments| && InSegment(segments[i], a)
    ensures Scan(segments, a) == Some(segments[i])
  {
    var found := Scan(segments, a);
    assert segments[i] in segments;
    var j :| 0 <= j < |segments| && segments[j] == found.value;
    assert i == j;
  }

  lemma NothingFound(segments: seq<Segment>, key: int, lo: nat)
    requires lo <= |segments|
    requires forall i :: 0 <= i < lo ==> segments[i].end < key
    requires forall i :: lo <= i < |segments| ==> key < segments[i].start
    ensures Scan(segments, key) == None
  {
  }

  /** Binary search agrees with the plain scan on every sorted table. */
  method Lookup(db: Db, ip: Ip) returns (r: Option<Location>)
    requires RefsOk(db) && Sorted(db.segments)
    ensures r == ScanLookup(db, ip)
  {
    if ip.V6? {
      return None;
    }
    var key := ip.addr;
    var lo, hi := 0, |db.segments| - 1;
    while lo <= hi
      invariant 0 <= lo <= hi + 1 <= |db.segments|
      invariant forall i :: 0 <= i < lo ==> db.segments[i].end < key
      invariant forall i :: hi < i < |db.segments| ==> key < db.segments[i].start
    {
      var mid := (lo + hi) / 2;
      var s := db.segments[mid];
      if key < s.start {
        hi := mid - 1;
      } else if key > s.end {
        lo := mid + 1;
      } else {
        ScanFinds(db.segments, mid, key);
        return Some(db.locations[s.loc]);
      }
    }
    NothingFound(db.segments, key, lo);
    r := None;
  }
}
