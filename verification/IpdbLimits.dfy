/** Inputs that the builder accepts although its format cannot hold them: one for each of the three counts. */
module IpdbLimits {
  import opened Collections
  import opened Cidr
  import opened Ipdb
  import opened IpdbFormat
  import opened IpdbBuild
  import opened IpdbRoundTrip

  /** One record for each of the first n addresses. */
  function OneEach(n: nat, loc: nat -> Location): (records: seq<Record>)
    requires n <= ADDRESS_COUNT
    ensures |records| == n
    ensures forall i :: 0 <= i < n ==> records[i].start == i == records[i].end && LocOf(records[i]) == loc(i)
  {
    seq(n, i requires 0 <= i < n => Record(i, i, loc(i).country, loc(i).region, loc(i).city, loc(i).isp))
  }

  lemma EachOrdered(n: nat, loc: nat -> Location)
    requires n <= ADDRESS_COUNT
    ensures Ordered(OneEach(n, loc))
  {
  }

  lemma EachLocation(n: nat, loc: nat -> Location, l: Location)
    requires n <= ADDRESS_COUNT
    ensures l in LocationsOf(OneEach(n, loc)) <==> exists i :: 0 <= i < n && loc(i) == l
  {
    var records := OneEach(n, loc);
    if i :| 0 <= i < n && loc(i) == l {
      assert records[i] in records;
    }
  }

  lemma EachString(n: nat, loc: nat -> Location, t: Text)
    requires n <= ADDRESS_COUNT
    ensures t in StringsOf(OneEach(n, loc)) <==> t == [] || exists i :: 0 <= i < n && t in FieldsOf(loc(i))
  {
    var records := OneEach(n, loc);
    hide FieldsOf;
    if i :| 0 <= i < n && t in FieldsOf(loc(i)) {
      assert records[i] in records;
    }
  }

  /** Pairwise different locations are counted once each. */
  lemma DifferentLocations(n: nat, loc: nat -> Location)
    requires n <= ADDRESS_COUNT && forall i, j :: 0 <= i < j < n ==> loc(i) != loc(j)
    ensures |LocationsOf(OneEach(n, loc))| == n
  {
    var all := seq(n, i requires 0 <= i < n => loc(i));
    DistinctCount(all);
    forall l
      ensures l in SetOf(all) <==> l in LocationsOf(OneEach(n, loc))
    {
      EachLocation(n, loc, l);
      if i :| 0 <= i < n && loc(i) == l {
        assert all[i] in all;
      }
    }
    assert SetOf(all) == LocationsOf(OneEach(n, loc));
  }

  lemma EachAccepted(n: nat, loc: nat -> Location)
    requires 0 < n <= ADDRESS_COUNT && |LocationsOf(OneEach(n, loc))| <= 0x1_0000
    requires forall i :: 0 <= i < n ==> Brief(loc(i))
    ensures Accepted(OneEach(n, loc))
  {
    EachOrdered(n, loc);
    hide Ordered, LocationsOf, StringsOf;
    forall t | t in StringsOf(OneEach(n, loc))
      ensures |t| < 0x1_0000
    {
      EachString(n, loc, t);
      if i :| 0 <= i < n && t in FieldsOf(loc(i)) {
        assert Brief(loc(i));
      }
    }
  }

  predicate Brief(l: Location) {
    |l.country| <= 3 && |l.region| <= 3 && |l.city| <= 3 && |l.isp| <= 3
  }

  // ----- 65536 locations

  /** Two one-byte names. */
  function ByteNames(i: nat): Location {
    Location([i / 256 % 256], [i % 256], [], [])
  }

  function Crowded(): seq<Record> {
    OneEach(0x1_0000, ByteNames)
  }

  /** A file for which the header counts no location. */
  lemma TooManyLocations()
    ensures Accepted(Crowded()) && |LocationsOf(Crowded())| == 0x1_0000 && !FitsFormat(Crowded())
  {
    forall i, j | 0 <= i < j < 0x1_0000
      ensures ByteNames(i) != ByteNames(j)
    {
      assert ByteNames(i).country[0] == i / 256 && ByteNames(j).country[0] == j / 256;
    }
    DifferentLocations(0x1_0000, ByteNames);
    EachAccepted(0x1_0000, ByteNames);
    hide Ordered, LocationsOf, StringsOf;
  }

  // ----- more than 65536 strings

  function Short(i: nat): Text {
    [i / 256 % 256, i % 256]
  }

  function Long(i: nat): Text {
    [i / 256 % 256, i % 256, 0]
  }

  function TwoNames(i: nat): Location {
    Location(Short(i), Long(i), [], [])
  }

  function Wordy(): seq<Record> {
    OneEach(0x8000, TwoNames)
  }

  lemma ShortDiffers(i: nat, j: nat)
    requires i < j < 0x1_0000
    ensures Short(i) != Short(j) && Long(i) != Long(j)
  {
    assert Short(i)[0] == i / 256 == Long(i)[0] && Short(j)[0] == j / 256 == Long(j)[0];
    assert Short(i)[1] == i % 256 == Long(i)[1] && Short(j)[1] == j % 256 == Long(j)[1];
  }

  /** All the strings of the wordy records: the empty one, the short and the long ones. */
  function Words(n: nat): (words: seq<Text>)
    ensures |words| == 2 * n + 1
  {
    seq(2 * n + 1, k requires 0 <= k < 2 * n + 1 => if k == 0 then [] else if k <= n then Short(k - 1) else Long(k - 1 - n))
  }

  lemma WordsDistinct(n: nat)
    requires n <= 0x1_0000
    ensures Distinct(Words(n))
  {
    var words := Words(n);
    forall j, k | 0 <= j < k < |words|
      ensures words[j] != words[k]
    {
      if 0 < j && k <= n {
        ShortDiffers(j - 1, k - 1);
      } else if n < j {
        ShortDiffers(j - 1 - n, k - 1 - n);
      }
    }
  }

  lemma WordsUsed(n: nat)
    requires n <= ADDRESS_COUNT
    ensures SetOf(Words(n)) <= StringsOf(OneEach(n, TwoNames))
  {
    forall t | t in SetOf(Words(n))
      ensures t in StringsOf(OneEach(n, TwoNames))
    {
      EachString(n, TwoNames, t);
      var k :| 0 <= k < 2 * n + 1 && Words(n)[k] == t;
      if k > 0 {
        var i := if k <= n then k - 1 else k - 1 - n;
        assert t in FieldsOf(TwoNames(i));
      }
    }
  }

  /** A file for which string indices are cut. */
  lemma TooManyStrings()
    ensures Accepted(Wordy()) && |LocationsOf(Wordy())| == 0x8000 && |StringsOf(Wordy())| > 0x1_0000 && !FitsFormat(Wordy())
  {
    forall i, j | 0 <= i < j < 0x8000
      ensures TwoNames(i) != TwoNames(j)
    {
      ShortDiffers(i, j);
    }
    DifferentLocations(0x8000, TwoNames);
    EachAccepted(0x8000, TwoNames);
    ManyWords(0x8000);
    hide Accepted, LocationsOf, StringsOf, OneEach;
  }

  lemma ManyWords(n: nat)
    requires n <= 0x1_0000
    ensures |StringsOf(OneEach(n, TwoNames))| > 2 * n
  {
    WordsDistinct(n);
    WordsUsed(n);
    DistinctCount(Words(n));
    hide StringsOf, SetOf, Distinct, OneEach;
    SubsetCard(SetOf(Words(n)), StringsOf(OneEach(n, TwoNames)));
  }

  // ----- 2^32 segments

  function Parity(i: nat): Location {
    Location([i % 2], [], [], [])
  }

  function Striped(): seq<Record> {
    OneEach(ADDRESS_COUNT, Parity)
  }

  /** Neighbours of different locations are not merged. */
  lemma {:induction false} NothingMerged(n: nat, loc: nat -> Location)
    requires n <= ADDRESS_COUNT && forall i :: 0 < i < n ==> loc(i - 1) != loc(i)
    ensures MergedCount(OneEach(n, loc)) == n
  {
    if n > 0 {
      NothingMerged(n - 1, loc);
      assert OneEach(n, loc)[..n - 1] == OneEach(n - 1, loc);
      assert n > 1 ==> LocOf(OneEach(n, loc)[n - 2]) == loc(n - 2);
    }
  }

  /** A file for which the header counts no segment. */
  lemma TooManySegments()
    ensures Accepted(Striped()) && MergedCount(Striped()) == ADDRESS_COUNT && !FitsFormat(Striped())
  {
    NothingMerged(ADDRESS_COUNT, Parity);
    FewParities(ADDRESS_COUNT);
    EachAccepted(ADDRESS_COUNT, Parity);
    hide Accepted, LocationsOf, StringsOf, MergedCount, OneEach;
  }

  lemma FewParities(n: nat)
    requires n <= ADDRESS_COUNT
    ensures |LocationsOf(OneEach(n, Parity))| <= 2
  {
    var both := {Parity(0), Parity(1)};
    forall l | l in LocationsOf(OneEach(n, Parity))
      ensures l in both
    {
      EachLocation(n, Parity, l);
    }
    hide LocationsOf, OneEach;
    SubsetCard(LocationsOf(OneEach(n, Parity)), both);
    assert |both - {Parity(0)}| <= 1;
  }

  /** Whatever the builder accepts beyond the format, it writes a file that does not answer as the records do. */
  method BuildBeyondFormat(records: seq<Record>, builtAt: Int64) returns (data: seq<Byte>)
    requires Accepted(records) && !FitsFormat(records)
    ensures !Faithful(records, ParseBytes(data))
  {
    hide Faithful, FitsFormat, Accepted, Compacted, Tabled, RawsOf, Serialise, ParseBytes;
    var built := BuildRecords(records, builtAt);
    ghost var segments, locations, strings, raws :|
      BuiltFrom(records, segments, locations, strings, raws) &&
      built.value == Serialise(builtAt, segments, raws, strings, false);
    RoundTrip(records, builtAt, segments, locations, strings, raws);
    data := built.value;
  }
}
