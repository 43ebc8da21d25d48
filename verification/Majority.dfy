/** The event sweep over several databases and the pointwise vote it computes. */
module Majority {
  import opened Cidr
  import opened Ranges
  import opened Ipdb

  /** One opinion: the half-open address range of a segment and the side it takes. */
  datatype Ballot = Ballot(lo: int, hi: int, yes: bool)

  datatype Event = Event(at: int, support: int, opposing: int)

  /** Foreign segments and segments without a province are silent. */
  predicate HasOpinion(db: Db, s: Segment)
    requires s.loc < |db.locations|
  {
    db.locations[s.loc].country == CHINA && db.locations[s.loc].region != []
  }

  predicate VotesYes(db: Db, s: Segment, provinces: seq<Text>)
    requires s.loc < |db.locations|
  {
    db.locations[s.loc].region in provinces
  }

  ghost function BallotsOf(db: Db, segments: seq<Segment>, provinces: seq<Text>): seq<Ballot>
    requires forall s <- segments :: s.loc < |db.locations|
  {
    if segments == [] then []
    else
      var s := segments[|segments| - 1];
      BallotsOf(db, segments[..|segments| - 1], provinces) +
      if HasOpinion(db, s) then [Ballot(s.start, s.end + 1, VotesYes(db, s, provinces))] else []
  }

  ghost function Ballots(sources: seq<Db>, provinces: seq<Text>): seq<Ballot>
    requires forall db <- sources :: RefsOk(db)
  {
    if sources == [] then []
    else
      var db := sources[|sources| - 1];
      assert RefsOk(db);
      Ballots(sources[..|sources| - 1], provinces) + BallotsOf(db, db.segments, provinces)
  }

  ghost predicate InBallot(b: Ballot, a: int) {
    b.lo <= a < b.hi
  }

  /** How many ballots of one side hold the address. */
  ghost function Votes(ballots: seq<Ballot>, yes: bool, a: int): nat {
    if ballots == [] then 0
    else
      var b := ballots[|ballots| - 1];
      Votes(ballots[..|ballots| - 1], yes, a) + if b.yes == yes && InBallot(b, a) then 1 else 0
  }

  /** The pointwise vote: strictly more segments for a wanted province than for another one. */
  ghost predicate Admitted(ballots: seq<Ballot>, a: int) {
    Votes(ballots, true, a) > Votes(ballots, false, a)
  }

  ghost function MajorityMember(sources: seq<Db>, provinces: seq<Text>): int -> bool
    requires forall db <- sources :: RefsOk(db)
  {
    (a: int) => Admitted(Ballots(sources, provinces), a)
  }

  // ----- the vote counted by source

  /**
   The side a source takes on an address, if it takes one: it must know a Chinese province there, and takes side for the
   wanted ones if that is one of them.
   */
  ghost predicate SourceVotes(db: Db, provinces: seq<Text>, yes: bool, a: int)
    requires RefsOk(db)
  {
    match LocationAt(db, a)
    case None => false
    case Some(l) => l.country == CHINA && l.region != [] && (l.region in provinces) == yes
  }

  ghost function CountSources(sources: seq<Db>, provinces: seq<Text>, yes: bool, a: int): nat
    requires forall db <- sources :: RefsOk(db)
  {
    if sources == [] then 0
    else
      var db := sources[|sources| - 1];
      assert db in sources;
      CountSources(sources[..|sources| - 1], provinces, yes, a) +
      if SourceVotes(db, provinces, yes, a) then 1 else 0
  }

  lemma VotesSnoc(ballots: seq<Ballot>, b: Ballot, yes: bool, a: int)
    ensures Votes(ballots + [b], yes, a) == Votes(ballots, yes, a) + if b.yes == yes && InBallot(b, a) then 1 else 0
  {
    assert (ballots + [b])[..|ballots|] == ballots;
  }

  lemma {:induction false} VotesConcat(xs: seq<Ballot>, ys: seq<Ballot>, yes: bool, a: int)
    ensures Votes(xs + ys, yes, a) == Votes(xs, yes, a) + Votes(ys, yes, a)
    decreases |ys|
  {
    if ys == [] {
      assert xs + ys == xs;
    } else {
      var front, b := ys[..|ys| - 1], ys[|ys| - 1];
      VotesConcat(xs, front, yes, a);
      assert xs + ys == (xs + front) + [b];
      VotesSnoc(xs + front, b, yes, a);
    }
  }

  lemma {:induction false} NobodyThere(db: Db, segments: seq<Segment>, provinces: seq<Text>, yes: bool, a: int)
    requires forall s <- segments :: s.loc < |db.locations| && !InSegment(s, a)
    ensures Votes(BallotsOf(db, segments, provinces), yes, a) == 0
  {
    if segments != [] {
      var front, last := segments[..|segments| - 1], segments[|segments| - 1];
      NobodyThere(db, front, provinces, yes, a);
      BallotsOfSnoc(db, front, last, provinces, yes, a);
      assert segments == front + [last];
    }
  }

  lemma BallotsOfSnoc(db: Db, front: seq<Segment>, s: Segment, provinces: seq<Text>, yes: bool, a: int)
    requires (forall t <- front :: t.loc < |db.locations|) && s.loc < |db.locations|
    ensures Votes(BallotsOf(db, front + [s], provinces), yes, a) == Votes(BallotsOf(db, front, provinces), yes, a) +
      if InSegment(s, a) && HasOpinion(db, s) && VotesYes(db, s, provinces) == yes then 1 else 0
  {
    assert (front + [s])[..|front|] == front;
    var bs := BallotsOf(db, front, provinces);
    if HasOpinion(db, s) {
      VotesSnoc(bs, Ballot(s.start, s.end + 1, VotesYes(db, s, provinces)), yes, a);
    } else {
      assert bs + [] == bs;
    }
  }

  lemma {:induction false} OneVotePerSource(db: Db, segments: seq<Segment>, s: Segment, provinces: seq<Text>, yes: bool, a: int)
    requires Sorted(segments) && (forall t <- segments :: t.loc < |db.locations|)
    requires s in segments && InSegment(s, a)
    ensures Votes(BallotsOf(db, segments, provinces), yes, a) ==
      if HasOpinion(db, s) && VotesYes(db, s, provinces) == yes then 1 else 0
    decreases |segments|
  {
    hide BallotsOf, Votes, HasOpinion, VotesYes;
    var front, last := segments[..|segments| - 1], segments[|segments| - 1];
    BallotsOfSnoc(db, front, last, provinces, yes, a);
    assert segments == front + [last];
    var i :| 0 <= i < |segments| && segments[i] == s;
    if i == |front| {
      NobodyThere(db, front, provinces, yes, a);
    } else {
      assert front[i] == s;
      OneVotePerSource(db, front, s, provinces, yes, a);
    }
  }

  /** Over sorted databases a segment vote is a source vote: each source has at most one opinion on an address. */
  lemma {:induction false} VotesAreSources(sources: seq<Db>, provinces: seq<Text>, yes: bool, a: int)
    requires forall db <- sources :: RefsOk(db) && Sorted(db.segments)
    ensures Votes(Ballots(sources, provinces), yes, a) == CountSources(sources, provinces, yes, a)
  {
    if sources != [] {
      var front, db := sources[..|sources| - 1], sources[|sources| - 1];
      assert db in sources;
      VotesAreSources(front, provinces, yes, a);
      VotesConcat(Ballots(front, provinces), BallotsOf(db, db.segments, provinces), yes, a);
      assert SourceVotes(db, provinces, yes, a) <==>
        match Scan(db.segments, a)
        case None => false
        case Some(s) => HasOpinion(db, s) && VotesYes(db, s, provinces) == yes;
      match Scan(db.segments, a)
      case None => NobodyThere(db, db.segments, provinces, yes, a);
      case Some(s) => OneVotePerSource(db, db.segments, s, provinces, yes, a);
    }
  }

  // ----- events

  ghost function EventsOf(ballots: seq<Ballot>): seq<Event> {
    if ballots == [] then []
    else
      var b := ballots[|ballots| - 1];
      EventsOf(ballots[..|ballots| - 1]) +
      [Event(b.lo, if b.yes then 1 else 0, if b.yes then 0 else 1),
       Event(b.hi, if b.yes then -1 else 0, if b.yes then 0 else -1)]
  }

  ghost function Change(e: Event, yes: bool): int {
    if yes then e.support else e.opposing
  }

  /** One counter after all events up to an address. */
  ghost function Tally(events: seq<Event>, yes: bool, x: int): int {
    if events == [] then 0
    else
      var e := events[|events| - 1];
      Tally(events[..|events| - 1], yes, x) + if e.at <= x then Change(e, yes) else 0
  }

  lemma TallySnoc(events: seq<Event>, e: Event, yes: bool, x: int)
    ensures Tally(events + [e], yes, x) == Tally(events, yes, x) + if e.at <= x then Change(e, yes) else 0
  {
    assert (events + [e])[..|events|] == events;
  }

  lemma {:induction false} TallyConcat(xs: seq<Event>, ys: seq<Event>, yes: bool, x: int)
    ensures Tally(xs + ys, yes, x) == Tally(xs, yes, x) + Tally(ys, yes, x)
    decreases |ys|
  {
    if ys == [] {
      assert xs + ys == xs;
    } else {
      var front, e := ys[..|ys| - 1], ys[|ys| - 1];
      TallyConcat(xs, front, yes, x);
      assert xs + ys == (xs + front) + [e];
      TallySnoc(xs + front, e, yes, x);
    }
  }

  lemma RemoveAt(ys: seq<Event>, i: nat)
    requires i < |ys|
    ensures ys == (ys[..i] + [ys[i]]) + ys[i + 1..]
    ensures multiset(ys[..i] + ys[i + 1..]) == multiset(ys) - multiset{ys[i]}
  {
    assert ys == (ys[..i] + [ys[i]]) + ys[i + 1..];
  }

  /** The counters do not depend on the order of the events. */
  lemma {:induction false} TallyPermutation(xs: seq<Event>, ys: seq<Event>, yes: bool, x: int)
    requires multiset(xs) == multiset(ys)
    ensures Tally(xs, yes, x) == Tally(ys, yes, x)
    decreases |xs|
  {
    if xs == [] {
      assert |multiset(ys)| == 0;
    } else {
      var i := Partner(xs, ys);
      TallyPermutation(xs[..|xs| - 1], ys[..i] + ys[i + 1..], yes, x);
      TallyRemoveAt(ys, i, yes, x);
    }
  }

  lemma Partner(xs: seq<Event>, ys: seq<Event>) returns (i: nat)
    requires multiset(xs) == multiset(ys) && xs != []
    ensures i < |ys| && ys[i] == xs[|xs| - 1]
    ensures multiset(ys[..i] + ys[i + 1..]) == multiset(xs[..|xs| - 1])
  {
    var last := |xs| - 1;
    RemoveAt(xs, last);
    assert xs[..last] + xs[last + 1..] == xs[..last];
    assert xs[last] in multiset(xs);
    i :| 0 <= i < |ys| && ys[i] == xs[last];
    RemoveAt(ys, i);
  }

  lemma TallyRemoveAt(ys: seq<Event>, i: nat, yes: bool, x: int)
    requires i < |ys|
    ensures Tally(ys, yes, x) == Tally(ys[..i] + ys[i + 1..], yes, x) + if ys[i].at <= x then Change(ys[i], yes) else 0
  {
    RemoveAt(ys, i);
    TallyConcat(ys[..i] + [ys[i]], ys[i + 1..], yes, x);
    TallyConcat(ys[..i], ys[i + 1..], yes, x);
    TallySnoc(ys[..i], ys[i], yes, x);
  }

  lemma {:induction false} EventsTally(ballots: seq<Ballot>, yes: bool, x: int)
    requires forall b <- ballots :: b.lo <= b.hi
    ensures Tally(EventsOf(ballots), yes, x) == Votes(ballots, yes, x)
  {
    if ballots != [] {
      var front, b := ballots[..|ballots| - 1], ballots[|ballots| - 1];
      EventsTally(front, yes, x);
      var first := Event(b.lo, if b.yes then 1 else 0, if b.yes then 0 else 1);
      var second := Event(b.hi, if b.yes then -1 else 0, if b.yes then 0 else -1);
      assert EventsOf(ballots) == (EventsOf(front) + [first]) + [second];
      TallySnoc(EventsOf(front), first, yes, x);
      TallySnoc(EventsOf(front) + [first], second, yes, x);
    }
  }

  lemma {:induction false} TallyLate(events: seq<Event>, yes: bool, x: int)
    requires forall e <- events :: x < e.at
    ensures Tally(events, yes, x) == 0
  {
    if events != [] {
      TallyLate(events[..|events| - 1], yes, x);
    }
  }

  lemma {:induction false} TallyEarly(events: seq<Event>, yes: bool, x: int, y: int)
    requires forall e <- events :: e.at <= x && e.at <= y
    ensures Tally(events, yes, x) == Tally(events, yes, y)
  {
    if events != [] {
      TallyEarly(events[..|events| - 1], yes, x, y);
    }
  }

  ghost predicate SortedEvents(events: seq<Event>) {
    forall i, j :: 0 <= i < j < |events| ==> events[i].at <= events[j].at
  }

  /** Sorting by address; events at one address may come in any order. */
  method SortEvents(events: seq<Event>) returns (sorted: seq<Event>)
    ensures SortedEvents(sorted) && multiset(sorted) == multiset(events)
  {
    sorted := [];
    for i := 0 to |events|
      invariant SortedEvents(sorted) && multiset(sorted) == multiset(events[..i])
    {
      InsertKeepsOrder(sorted, events[i]);
      InsertKeepsEvents(sorted, events[i]);
      sorted := InsertEvent(sorted, events[i]);
      assert events[..i + 1] == events[..i] + [events[i]];
    }
    assert events[..|events|] == events;
  }

  function InsertEvent(sorted: seq<Event>, e: Event): seq<Event> {
    if sorted == [] then [e]
    else
      var front, last := sorted[..|sorted| - 1], sorted[|sorted| - 1];
      if last.at <= e.at then sorted + [e] else InsertEvent(front, e) + [last]
  }

  lemma {:induction false} InsertKeepsEvents(sorted: seq<Event>, e: Event)
    ensures multiset(InsertEvent(sorted, e)) == multiset(sorted) + multiset{e}
    ensures forall x <- InsertEvent(sorted, e) :: x in sorted || x == e
    decreases |sorted|
  {
    if sorted != [] {
      var front, last := sorted[..|sorted| - 1], sorted[|sorted| - 1];
      assert sorted == front + [last];
      InsertKeepsEvents(front, e);
    }
  }

  lemma {:induction false} InsertKeepsOrder(sorted: seq<Event>, e: Event)
    requires SortedEvents(sorted)
    ensures SortedEvents(InsertEvent(sorted, e))
    decreases |sorted|
  {
    if sorted != [] {
      var front, last := sorted[..|sorted| - 1], sorted[|sorted| - 1];
      InsertKeepsOrder(front, e);
      InsertKeepsEvents(front, e);
      if e.at < last.at {
        var r := InsertEvent(front, e);
        forall j | 0 <= j < |r|
          ensures r[j].at <= last.at
        {
          assert r[j] in r;
        }
      }
    }
  }

  /** The running counters after a prefix of the sorted events are the vote at every address up to the next event. */
  lemma PrefixIsVote(ballots: seq<Ballot>, events: seq<Event>, i: nat, yes: bool, x: int)
    requires forall b <- ballots :: b.lo <= b.hi
    requires multiset(events) == multiset(EventsOf(ballots)) && i <= |events|
    requires forall j :: 0 <= j < i ==> events[j].at <= x && events[j].at <= ADDRESS_COUNT
    requires forall j :: i <= j < |events| ==> x < events[j].at
    ensures Tally(events[..i], yes, ADDRESS_COUNT) == Votes(ballots, yes, x)
  {
    EventsTally(ballots, yes, x);
    TallyPermutation(events, EventsOf(ballots), yes, x);
    assert events == events[..i] + events[i..];
    TallyConcat(events[..i], events[i..], yes, x);
    TallyLate(events[i..], yes, x);
    TallyEarly(events[..i], yes, x, ADDRESS_COUNT);
  }

  lemma {:induction false} EventBounds(ballots: seq<Ballot>)
    requires forall b <- ballots :: 0 <= b.lo <= b.hi <= ADDRESS_COUNT
    ensures forall e <- EventsOf(ballots) :: 0 <= e.at <= ADDRESS_COUNT
  {
    if ballots != [] {
      EventBounds(ballots[..|ballots| - 1]);
    }
  }

  ghost predicate EventsMatch(ballots: seq<Ballot>, events: seq<Event>) {
    && (forall b <- ballots :: 0 <= b.lo <= b.hi <= ADDRESS_COUNT)
    && multiset(events) == multiset(EventsOf(ballots))
    && SortedEvents(events)
    && (forall e <- events :: 0 <= e.at <= ADDRESS_COUNT)
  }

  lemma {:induction false} NoVotesBehind(ballots: seq<Ballot>, yes: bool)
    requires forall b <- ballots :: b.hi <= ADDRESS_COUNT
    ensures Votes(ballots, yes, ADDRESS_COUNT) == 0
  {
    if ballots != [] {
      NoVotesBehind(ballots[..|ballots| - 1], yes);
    }
  }

  /** Behind the last event nobody votes, so no range can be left open. */
  lemma NoVoteAtEnd(ballots: seq<Ballot>, events: seq<Event>, yes: bool)
    requires EventsMatch(ballots, events)
    ensures Tally(events, yes, ADDRESS_COUNT) == 0
  {
    PrefixIsVote(ballots, events, |events|, yes, ADDRESS_COUNT);
    assert events[..|events|] == events;
    NoVotesBehind(ballots, yes);
  }

  lemma SortedMatch(ballots: seq<Ballot>, collected: seq<Event>, events: seq<Event>)
    requires forall b <- ballots :: 0 <= b.lo <= b.hi <= ADDRESS_COUNT
    requires collected == EventsOf(ballots) && multiset(events) == multiset(collected) && SortedEvents(events)
    ensures EventsMatch(ballots, events)
  {
    EventBounds(ballots);
    forall e | e in events
      ensures 0 <= e.at <= ADDRESS_COUNT
    {
      assert e in multiset(events);
      assert e in collected;
    }
  }

  lemma {:induction false} BallotBounds(db: Db, segments: seq<Segment>, provinces: seq<Text>)
    requires forall s <- segments :: s.loc < |db.locations| && s.start <= s.end
    ensures forall b <- BallotsOf(db, segments, provinces) :: 0 <= b.lo <= b.hi <= ADDRESS_COUNT
  {
    if segments != [] {
      BallotBounds(db, segments[..|segments| - 1], provinces);
    }
  }

  lemma {:induction false} AllBallotBounds(sources: seq<Db>, provinces: seq<Text>)
    requires forall db <- sources :: RefsOk(db) && forall s <- db.segments :: s.start <= s.end
    ensures forall b <- Ballots(sources, provinces) :: 0 <= b.lo <= b.hi <= ADDRESS_COUNT
  {
    if sources != [] {
      AllBallotBounds(sources[..|sources| - 1], provinces);
      BallotBounds(sources[|sources| - 1], sources[|sources| - 1].segments, provinces);
    }
  }

  lemma {:induction false} EventsConcat(xs: seq<Ballot>, ys: seq<Ballot>)
    ensures EventsOf(xs + ys) == EventsOf(xs) + EventsOf(ys)
    decreases |ys|
  {
    if ys == [] {
      assert xs + ys == xs;
    } else {
      EventsConcat(xs, ys[..|ys| - 1]);
      assert (xs + ys)[..|xs + ys| - 1] == xs + ys[..|ys| - 1];
    }
  }

  /** The events of one database, two for every segment that votes. */
  method CollectEvents(db: Db, provinces: seq<Text>) returns (events: seq<Event>)
    requires RefsOk(db)
    ensures events == EventsOf(BallotsOf(db, db.segments, provinces))
  {
    events := [];
    for i := 0 to |db.segments|
      invariant events == EventsOf(BallotsOf(db, db.segments[..i], provinces))
    {
      var seg := db.segments[i];
      assert seg in db.segments;
      assert db.segments[..i + 1][..i] == db.segments[..i];
      ghost var front := BallotsOf(db, db.segments[..i], provinces);
      if !HasOpinion(db, seg) {
        assert front + [] == front;
        continue;
      }
      var lo, hi := seg.start, seg.end + 1;
      ghost var b := Ballot(lo, hi, VotesYes(db, seg, provinces));
      assert (front + [b])[..|front|] == front;
      if VotesYes(db, seg, provinces) {
        events := events + [Event(lo, 1, 0), Event(hi, -1, 0)];
      } else {
        events := events + [Event(lo, 0, 1), Event(hi, 0, -1)];
      }
    }
    assert db.segments[..|db.segments|] == db.segments;
  }

  /** The vote at every address below the next event is what the ranges and the open range say. */
  ghost predicate SweepState(ballots: seq<Ballot>, events: seq<Event>, i: nat, ranges: seq<Range>,
                             support: int, opposing: int, rangeStart: int, inRange: bool)
    requires i <= |events|
  {
    && support == Tally(events[..i], true, ADDRESS_COUNT)
    && opposing == Tally(events[..i], false, ADDRESS_COUNT)
    && (inRange <==> support > opposing)
    && (0 < i < |events| ==> events[i - 1].at < events[i].at)
    && Separated(ranges)
    && (inRange ==> 0 < i && 0 <= rangeStart <= events[i - 1].at && (ranges != [] ==> Last(ranges).hi + 1 < rangeStart))
    && (!inRange && ranges != [] ==> 0 < i && Last(ranges).hi + 1 <= events[i - 1].at)
    && (forall a :: (i < |events| ==> a < events[i].at) ==>
          (Admitted(ballots, a) <==> InRanges(ranges, a) || (inRange && rangeStart <= a)))
  }

  lemma RangesBelow(ranges: seq<Range>, at: int, a: int)
    requires Separated(ranges) && (ranges != [] ==> Last(ranges).hi + 1 <= at) && at <= a
    ensures !InRanges(ranges, a)
  {
    forall r | r in ranges
      ensures !InRange(r, a)
    {
      var i :| 0 <= i < |ranges| && ranges[i] == r;
    }
  }

  ghost predicate EventGroup(events: seq<Event>, i: nat, j: nat) {
    && i < j <= |events|
    && (forall k :: i <= k < j ==> events[k].at == events[i].at)
    && (j < |events| ==> events[i].at < events[j].at)
  }

  lemma VoteInGroup(ballots: seq<Ballot>, events: seq<Event>, i: nat, j: nat, a: int)
    requires EventsMatch(ballots, events) && EventGroup(events, i, j)
    requires events[i].at <= a && (j < |events| ==> a < events[j].at)
    ensures Admitted(ballots, a) <==>
      Tally(events[..j], true, ADDRESS_COUNT) > Tally(events[..j], false, ADDRESS_COUNT)
  {
    PrefixIsVote(ballots, events, j, true, a);
    PrefixIsVote(ballots, events, j, false, a);
  }

  /** One event group: the range list after the step still describes the vote up to the next event. */
  lemma SweepStep(ballots: seq<Ballot>, events: seq<Event>, i: nat, j: nat, ranges: seq<Range>,
                  support: int, opposing: int, rangeStart: int, inRange: bool, support': int, opposing': int)
    requires EventsMatch(ballots, events) && EventGroup(events, i, j)
    requires SweepState(ballots, events, i, ranges, support, opposing, rangeStart, inRange)
    requires support' == Tally(events[..j], true, ADDRESS_COUNT) && opposing' == Tally(events[..j], false, ADDRESS_COUNT)
    ensures inRange ==> 0 <= rangeStart < events[i].at <= ADDRESS_COUNT
    ensures var inRange' := support' > opposing';
      SweepState(ballots, events, j,
                 if inRange && !inRange' then ranges + [Range(rangeStart, events[i].at - 1)] else ranges,
                 support', opposing', if inRange' && !inRange then events[i].at else rangeStart, inRange')
  {
    hide Admitted, InRanges, Tally, EventsMatch, Separated;
    var at, inRange' := events[i].at, support' > opposing';
    EventAt(ballots, events, i);
    if inRange && !inRange' {
      SeparatedSnoc(ranges, Range(rangeStart, at - 1));
    }
    forall a | j < |events| ==> a < events[j].at
      ensures Admitted(ballots, a) <==>
        InRanges(if inRange && !inRange' then ranges + [Range(rangeStart, at - 1)] else ranges, a) ||
        (inRange' && (if inRange' && !inRange then at else rangeStart) <= a)
    {
      SweepStepAt(ballots, events, i, j, ranges, rangeStart, inRange, inRange', a);
    }
  }

  lemma EventAt(ballots: seq<Ballot>, events: seq<Event>, i: nat)
    requires EventsMatch(ballots, events) && i < |events|
    ensures 0 <= events[i].at <= ADDRESS_COUNT
    ensures 0 < i ==> events[i - 1].at <= events[i].at
  {
    assert events[i] in events;
  }

  lemma SeparatedSnoc(ranges: seq<Range>, r: Range)
    requires Separated(ranges) && r.lo <= r.hi && (ranges != [] ==> Last(ranges).hi + 1 < r.lo)
    ensures Separated(ranges + [r])
  {
  }

  lemma SweepStepAt(ballots: seq<Ballot>, events: seq<Event>, i: nat, j: nat, ranges: seq<Range>,
                    rangeStart: int, inRange: bool, inRange': bool, a: int)
    requires EventsMatch(ballots, events) && EventGroup(events, i, j)
    requires inRange' <==> Tally(events[..j], true, ADDRESS_COUNT) > Tally(events[..j], false, ADDRESS_COUNT)
    requires Separated(ranges) && (ranges != [] ==> Last(ranges).hi + 1 <= events[i].at)
    requires inRange ==> 0 <= rangeStart < events[i].at <= ADDRESS_COUNT
    requires a < events[i].at ==> (Admitted(ballots, a) <==> InRanges(ranges, a) || (inRange && rangeStart <= a))
    requires j < |events| ==> a < events[j].at
    ensures Admitted(ballots, a) <==>
      InRanges(if inRange && !inRange' then ranges + [Range(rangeStart, events[i].at - 1)] else ranges, a) ||
      (inRange' && (if inRange' && !inRange then events[i].at else rangeStart) <= a)
  {
    hide Admitted;
    if inRange && !inRange' {
      InRangesSnoc(ranges, Range(rangeStart, events[i].at - 1), a);
    }
    if a >= events[i].at {
      VoteInGroup(ballots, events, i, j, a);
      RangesBelow(ranges, events[i].at, a);
    }
  }

  lemma StartState(ballots: seq<Ballot>, events: seq<Event>)
    requires EventsMatch(ballots, events)
    ensures SweepState(ballots, events, 0, [], 0, 0, 0, false)
  {
    assert events[..0] == [];
    forall a | 0 < |events| ==> a < events[0].at
      ensures !Admitted(ballots, a)
    {
      PrefixIsVote(ballots, events, 0, true, a);
      PrefixIsVote(ballots, events, 0, false, a);
    }
  }

  lemma SweepFinished(sources: seq<Db>, provinces: seq<Text>, ballots: seq<Ballot>, events: seq<Event>, ranges: seq<Range>,
                      support: int, opposing: int, rangeStart: int, inRange: bool)
    requires (forall db <- sources :: RefsOk(db)) && ballots == Ballots(sources, provinces)
    requires EventsMatch(ballots, events)
    requires SweepState(ballots, events, |events|, ranges, support, opposing, rangeStart, inRange)
    ensures !inRange && MinimalBlocks(SplitAll(ranges), MajorityMember(sources, provinces))
  {
    NoVoteAtEnd(ballots, events, true);
    NoVoteAtEnd(ballots, events, false);
    assert events[..|events|] == events;
    SplitAllIsMinimal(ranges, MajorityMember(sources, provinces));
  }

  /** All votes of all sources as events, sorted by address. */
  method CollectAll(sources: seq<Db>, provinces: seq<Text>) returns (events: seq<Event>)
    requires forall db <- sources :: RefsOk(db) && forall s <- db.segments :: s.start <= s.end
    ensures EventsMatch(Ballots(sources, provinces), events)
  {
    var collected: seq<Event> := [];
    for n := 0 to |sources|
      invariant collected == EventsOf(Ballots(sources[..n], provinces))
    {
      assert sources[n] in sources;
      assert sources[..n + 1][..n] == sources[..n];
      var more := CollectEvents(sources[n], provinces);
      EventsConcat(Ballots(sources[..n], provinces), BallotsOf(sources[n], sources[n].segments, provinces));
      collected := collected + more;
    }
    assert sources[..|sources|] == sources;
    AllBallotBounds(sources, provinces);
    events := SortEvents(collected);
    SortedMatch(Ballots(sources, provinces), collected, events);
  }

  /** The sweep returns exactly the addresses the pointwise vote admits, as few blocks as possible. */
  method MajorityCidrsOfProvinces(sources: seq<Db>, provinces: seq<Text>) returns (out: seq<Block>)
    requires forall db <- sources :: RefsOk(db) && forall s <- db.segments :: s.start <= s.end
    ensures provinces != [] ==> MinimalBlocks(out, MajorityMember(sources, provinces))
    ensures provinces == [] ==> out == []
  {
    hide SweepState, MinimalBlocks, EventsMatch;
    out := [];
    if |provinces| == 0 {
      return;
    }
    var events := CollectAll(sources, provinces);
    ghost var ballots := Ballots(sources, provinces);
    ghost var ranges: seq<Range> := [];
    var support, opposing, rangeStart, inRange := 0, 0, 0, false;
    var i := 0;
    StartState(ballots, events);
    TallyStart(ballots, events);
    while i < |events|
      invariant 0 <= i <= |events|
      invariant out == SplitAll(ranges)
      invariant support == Tally(events[..i], true, ADDRESS_COUNT)
      invariant opposing == Tally(events[..i], false, ADDRESS_COUNT)
      invariant SweepState(ballots, events, i, ranges, support, opposing, rangeStart, inRange)
    {
      var at := events[i].at;
      ghost var i0, support0, opposing0 := i, support, opposing;
      while i < |events| && events[i].at == at
        invariant i0 <= i <= |events|
        invariant i == i0 ==> events[i].at == at
        invariant forall k :: i0 <= k < i ==> events[k].at == at
        invariant support == Tally(events[..i], true, ADDRESS_COUNT)
        invariant opposing == Tally(events[..i], false, ADDRESS_COUNT)
      {
        TallyNext(ballots, events, i);
        support := support + events[i].support;
        opposing := opposing + events[i].opposing;
        i := i + 1;
      }
      GroupEnds(ballots, events, i0, i);
      SweepStep(ballots, events, i0, i, ranges, support0, opposing0, rangeStart, inRange, support, opposing);
      var admit := support > opposing;
      if admit && !inRange {
        rangeStart, inRange := at, true;
      } else if !admit && inRange {
        var blocks := RangeToCidrs(rangeStart, at - 1);
        SplitAllSnoc(ranges, Range(rangeStart, at - 1));
        out := out + blocks;
        ranges := ranges + [Range(rangeStart, at - 1)];
        inRange := false;
      }
    }
    SweepFinished(sources, provinces, ballots, events, ranges, support, opposing, rangeStart, inRange);
  }

  lemma TallyStart(ballots: seq<Ballot>, events: seq<Event>)
    ensures Tally(events[..0], true, ADDRESS_COUNT) == Tally(events[..0], false, ADDRESS_COUNT) == 0
  {
  }

  lemma TallyNext(ballots: seq<Ballot>, events: seq<Event>, i: nat)
    requires EventsMatch(ballots, events) && i < |events|
    ensures Tally(events[..i + 1], true, ADDRESS_COUNT) == Tally(events[..i], true, ADDRESS_COUNT) + events[i].support
    ensures Tally(events[..i + 1], false, ADDRESS_COUNT) == Tally(events[..i], false, ADDRESS_COUNT) + events[i].opposing
  {
    assert events[i] in events;
    assert events[..i + 1] == events[..i] + [events[i]];
    TallySnoc(events[..i], events[i], true, ADDRESS_COUNT);
    TallySnoc(events[..i], events[i], false, ADDRESS_COUNT);
  }

  lemma GroupEnds(ballots: seq<Ballot>, events: seq<Event>, i: nat, j: nat)
    requires EventsMatch(ballots, events) && i < j <= |events|
    requires forall k :: i <= k < j ==> events[k].at == events[i].at
    requires j < |events| ==> events[j].at != events[i].at
    ensures EventGroup(events, i, j)
  {
  }

  /** Over sorted databases the returned blocks hold an address exactly when more sources vote for than against. */
  lemma MajorityBySource(sources: seq<Db>, provinces: seq<Text>, out: seq<Block>, a: int)
    requires forall db <- sources :: RefsOk(db) && Sorted(db.segments)
    requires MinimalBlocks(out, MajorityMember(sources, provinces))
    ensures Covers(out, a) <==>
      CountSources(sources, provinces, true, a) > CountSources(sources, provinces, false, a)
  {
    VotesAreSources(sources, provinces, true, a);
    VotesAreSources(sources, provinces, false, a);
  }
}
