/**
 Every byte once: over any run of dumps, close notifications and drains, the bytes handed on, still pending or
 refused by the full table are exactly the growth of the connections that were seen.
 */
module Conservation {
  import opened Collections
  import opened Online

  /** A connection as observed so far: where its counting started and where it stands. */
  datatype Seen = Seen(key: Key, base: Bytes, last: Bytes)

  datatype Event =
    | Dump(conns: seq<Sample>, ports: set<int>, now: int)
    | Close(conn: Sample, now: int)
    | Drain

  /** What an observer of the events knows, without any of the tracker's bookkeeping. */
  datatype History = History(
    seen: map<Cookie, Seen>, lastDump: Option<int>, ports: set<int>,
    present: set<Cookie>, absentAt: map<Cookie, int>, closedAt: map<Cookie, int>)

  predicate Visible(c: Sample, ports: set<int>) {
    c.port in ports && Normalize(c.remoteIp) != [] && c.hasBytes
  }

  /** A connection of the very first dump starts at the counters it had then, any other one at zero. */
  function Observe(seen: map<Cookie, Seen>, c: Sample, first: bool): map<Cookie, Seen> {
    if c.cookie in seen then seen[c.cookie := seen[c.cookie].(last := c.bytes)]
    else seen[c.cookie := Seen(KeyOf(c), if first then c.bytes else ZERO, c.bytes)]
  }

  predicate Fresh(h: History, ports: set<int>, c: Sample) {
    Visible(c, ports) && c.cookie !in h.closedAt
  }

  function ObserveAll(h: History, ports: set<int>, conns: seq<Sample>): map<Cookie, Seen> {
    if conns == [] then h.seen
    else
      var front, c := ObserveAll(h, ports, conns[..|conns| - 1]), conns[|conns| - 1];
      if Fresh(h, ports, c) then Observe(front, c, h.lastDump.None?) else front
  }

  function PresentIn(h: History, ports: set<int>, conns: seq<Sample>): set<Cookie> {
    set c | c in conns && Fresh(h, ports, c) :: c.cookie
  }

  function AfterEvent(h: History, e: Event): History {
    match e
    case Drain => h
    case Dump(conns, ports, now) =>
      var present := PresentIn(h, ports, conns);
      History(ObserveAll(h, ports, conns), Some(now), ports, present,
              map c | c in h.absentAt.Keys + h.present && c !in present :: if c in h.present then now else h.absentAt[c],
              h.closedAt)
    case Close(c, now) =>
      if h.lastDump.None? || !Fresh(h, h.ports, c) then h
      else
        h.(seen := Observe(h.seen, c, false), closedAt := h.closedAt[c.cookie := now],
           present := h.present - {c.cookie}, absentAt := h.absentAt - {c.cookie})
  }

  /**
   What is assumed of one visible sample: a closed connection only shows up again within the closed retention, and
   any other known one keeps its endpoint, does not count backwards and was not missing beyond the gone retention.
   */
  predicate LegalSample(h: History, c: Sample) {
    if c.cookie in h.closedAt then h.lastDump.Some? && h.lastDump.value - h.closedAt[c.cookie] <= CLOSED_RETENTION
    else if c.cookie in h.seen then
      && h.seen[c.cookie].key == KeyOf(c)
      && h.seen[c.cookie].last.up <= c.bytes.up && h.seen[c.cookie].last.down <= c.bytes.down
      && (c.cookie in h.present ||
          (c.cookie in h.absentAt && h.lastDump.Some? && h.lastDump.value - h.absentAt[c.cookie] <= GONE_RETENTION))
    else true
  }

  predicate Legal(h: History, e: Event) {
    match e
    case Drain => true
    case Dump(conns, ports, now) =>
      && (h.lastDump.Some? ==> h.lastDump.value <= now)
      && (forall c <- conns :: Visible(c, ports) ==> LegalSample(h, c))
      && (forall i, j :: 0 <= i < j < |conns| && Visible(conns[i], ports) && Visible(conns[j], ports) ==>
            conns[i].cookie != conns[j].cookie)
    case Close(c, now) =>
      Visible(c, h.ports) && h.lastDump.Some? ==> LegalSample(h, c) && h.lastDump.value - now <= CLOSED_RETENTION
  }

  // ----- totals

  function Part(b: Bytes, up: bool): nat {
    if up then b.up else b.down
  }

  function Weight(s: Seen, key: Key, up: bool): int {
    if s.key == key then Part(s.last, up) - Part(s.base, up) else 0
  }

  /** The growth of all seen connections of one source in one direction. */
  ghost function Total(seen: map<Cookie, Seen>, key: Key, up: bool): int
    decreases seen.Keys
  {
    if seen.Keys == {} then 0
    else
      var c := Element(seen.Keys);
      Weight(seen[c], key, up) + Total(seen - {c}, key, up)
  }

  lemma {:induction false} TotalRemove(seen: map<Cookie, Seen>, c: Cookie, key: Key, up: bool)
    requires c in seen
    ensures Total(seen, key, up) == Weight(seen[c], key, up) + Total(seen - {c}, key, up)
    decreases seen.Keys
  {
    var d := Element(seen.Keys);
    if d != c {
      TotalRemove(seen - {d}, c, key, up);
      TotalRemove(seen - {c}, d, key, up);
      assert seen - {d} - {c} == seen - {c} - {d};
    }
  }

  lemma TotalObserve(seen: map<Cookie, Seen>, c: Sample, first: bool, key: Key, up: bool)
    requires c.cookie in seen ==> seen[c.cookie].key == KeyOf(c)
    ensures Total(Observe(seen, c, first), key, up) == Total(seen, key, up) +
      if KeyOf(c) != key then 0
      else if c.cookie in seen then Part(c.bytes, up) - Part(seen[c.cookie].last, up)
      else if first then 0 else Part(c.bytes, up)
  {
    var after := Observe(seen, c, first);
    TotalRemove(after, c.cookie, key, up);
    if c.cookie in seen {
      TotalRemove(seen, c.cookie, key, up);
      assert after - {c.cookie} == seen - {c.cookie};
    } else {
      assert after - {c.cookie} == seen;
    }
  }

  function Amount(m: map<Key, Bytes>, key: Key, up: bool): nat {
    Part(Get(m, key), up)
  }

  lemma AddPendingAmount(t: Tracker, k: Key, b: Bytes, key: Key, up: bool)
    ensures var r := AddPending(t, k, b);
      Amount(r.pending, key, up) + Amount(r.lost, key, up) ==
      Amount(t.pending, key, up) + Amount(t.lost, key, up) + if key == k then Part(b, up) else 0
  {
    if b != ZERO {
      PlusAmount(t.pending, k, b, key, up);
      PlusAmount(t.lost, k, b, key, up);
      hide Amount, Get, Plus;
    }
  }

  lemma PlusAmount(m: map<Key, Bytes>, k: Key, b: Bytes, key: Key, up: bool)
    ensures Amount(m[k := Plus(Get(m, k), b)], key, up) == Amount(m, key, up) + if key == k then Part(b, up) else 0
  {
  }

  /** Handed on, pending and refused bytes together are the growth of what was seen. */
  ghost predicate Balanced(seen: map<Cookie, Seen>, credited: map<Key, Bytes>, t: Tracker) {
    forall key, up :: Amount(credited, key, up) + Amount(t.pending, key, up) + Amount(t.lost, key, up) == Total(seen, key, up)
  }

  /** Crediting the difference to the last counters balances the observation. */
  lemma CreditBalances(seen: map<Cookie, Seen>, credited: map<Key, Bytes>, t: Tracker, c: Sample, base: Option<Bytes>)
    requires Balanced(seen, credited, t)
    requires if c.cookie in seen then
        seen[c.cookie].key == KeyOf(c) && base == Some(seen[c.cookie].last) &&
        seen[c.cookie].last.up <= c.bytes.up && seen[c.cookie].last.down <= c.bytes.down
      else base == None
    ensures Balanced(Observe(seen, c, false), credited, AddPending(t, KeyOf(c), DeltaBytes(c.bytes, base)))
  {
    var b := DeltaBytes(c.bytes, base);
    forall key, up
      ensures var r := AddPending(t, KeyOf(c), b);
        Amount(credited, key, up) + Amount(r.pending, key, up) + Amount(r.lost, key, up) == Total(Observe(seen, c, false), key, up)
    {
      AddPendingAmount(t, KeyOf(c), b, key, up);
      TotalObserve(seen, c, false, key, up);
    }
  }

  // ----- the tracker's bookkeeping against the history

  ghost predicate ClosedWindow(h: History, t: Tracker) {
    && (forall c :: c in t.closed <==> c in h.closedAt && h.lastDump.Some? && h.lastDump.value - h.closedAt[c] <= CLOSED_RETENTION)
    && (forall c :: c in t.closed ==> t.closed[c] == h.closedAt[c])
  }

  ghost predicate PresentWindow(h: History, t: Tracker) {
    && t.lastSample == h.lastDump && t.ports == h.ports
    && (forall c :: c in t.prev <==> c in h.present)
    && (forall c :: c in t.prev ==> c in h.seen && t.prev[c] == h.seen[c].last)
  }

  ghost predicate GoneWindow(h: History, t: Tracker) {
    && (forall c :: c in t.gone <==> c in h.absentAt && h.lastDump.Some? && h.lastDump.value - h.absentAt[c] <= GONE_RETENTION)
    && (forall c :: c in t.gone ==> c in h.seen && t.gone[c] == GoneConn(h.seen[c].last, h.absentAt[c]))
  }

  ghost predicate Windows(h: History, t: Tracker) {
    ClosedWindow(h, t) && PresentWindow(h, t) && GoneWindow(h, t)
  }

  ghost predicate Partition(h: History) {
    && (forall c :: c in h.seen ==> c in h.present || c in h.absentAt || c in h.closedAt)
    && (forall c :: c in h.present ==> c in h.seen && c !in h.absentAt && c !in h.closedAt)
    && (forall c :: c in h.absentAt ==> c in h.seen && c !in h.closedAt)
    && (h.lastDump.None? ==> h.seen == map[] && h.present == {} && h.absentAt == map[] && h.closedAt == map[])
  }

  ghost predicate Inv(h: History, credited: map<Key, Bytes>, t: Tracker) {
    Windows(h, t) && Partition(h) && Balanced(h.seen, credited, t)
  }

  /** For a legal sample the tracker remembers exactly the counters last seen. */
  lemma BaselineIsLast(h: History, t: Tracker, c: Sample)
    requires Windows(h, t) && Partition(h) && LegalSample(h, c) && c.cookie !in h.closedAt
    ensures Baseline(t, c.cookie) == if c.cookie in h.seen then Some(h.seen[c.cookie].last) else None
  {
  }

  lemma CountedIsFresh(h: History, t: Tracker, ports: set<int>, c: Sample)
    requires Windows(h, t) && (Visible(c, ports) ==> LegalSample(h, c))
    ensures Counted(t, ports, c) <==> Fresh(h, ports, c)
  {
  }

  /** The observations of a dump: untouched cookies keep their entry, touched ones end at the sampled counters. */
  lemma {:induction false} ObservedByDump(h: History, ports: set<int>, conns: seq<Sample>, now: int)
    requires Legal(h, Dump(conns, ports, now))
    ensures var seen := ObserveAll(h, ports, conns);
      && (forall c :: c in seen <==> c in h.seen || c in PresentIn(h, ports, conns))
      && (forall c :: c in h.seen && c !in PresentIn(h, ports, conns) ==> seen[c] == h.seen[c])
      && (forall s <- conns :: Fresh(h, ports, s) ==> seen[s.cookie].last == s.bytes && seen[s.cookie].key == KeyOf(s))
    decreases |conns|
  {
    if conns != [] {
      var front, s := conns[..|conns| - 1], conns[|conns| - 1];
      assert conns == front + [s];
      LegalFront(h, ports, conns, now);
      ObservedByDump(h, ports, front, now);
      PresentSnoc(h, ports, front, s);
      assert s in conns;
      if Fresh(h, ports, s) {
        FreshIsNew(h, ports, conns, now);
      }
    }
  }

  lemma LegalFront(h: History, ports: set<int>, conns: seq<Sample>, now: int)
    requires conns != [] && Legal(h, Dump(conns, ports, now))
    ensures Legal(h, Dump(conns[..|conns| - 1], ports, now))
  {
  }

  lemma PresentSnoc(h: History, ports: set<int>, front: seq<Sample>, s: Sample)
    ensures PresentIn(h, ports, front + [s]) == PresentIn(h, ports, front) + if Fresh(h, ports, s) then {s.cookie} else {}
  {
    assert forall c :: c in front + [s] <==> c in front || c == s;
  }

  /** Cookies are unique within a dump. */
  lemma FreshIsNew(h: History, ports: set<int>, conns: seq<Sample>, now: int)
    requires conns != [] && Legal(h, Dump(conns, ports, now)) && Fresh(h, ports, conns[|conns| - 1])
    ensures conns[|conns| - 1].cookie !in PresentIn(h, ports, conns[..|conns| - 1])
  {
    var front, s := conns[..|conns| - 1], conns[|conns| - 1];
    forall c | c in front && Fresh(h, ports, c)
      ensures c.cookie != s.cookie
    {
      var i :| 0 <= i < |front| && front[i] == c;
      assert conns[i] == c;
    }
  }

  lemma {:induction false} CurrentIsPresent(h: History, t: Tracker, ports: set<int>, conns: seq<Sample>, now: int)
    requires Windows(h, t) && Legal(h, Dump(conns, ports, now))
    ensures CurrentOf(t, ports, conns).Keys == PresentIn(h, ports, conns)
    ensures forall s <- conns :: Fresh(h, ports, s) ==> CurrentOf(t, ports, conns)[s.cookie] == s.bytes
    decreases |conns|
  {
    if conns != [] {
      var front, s := conns[..|conns| - 1], conns[|conns| - 1];
      assert conns == front + [s];
      LegalFront(h, ports, conns, now);
      CurrentIsPresent(h, t, ports, front, now);
      PresentSnoc(h, ports, front, s);
      assert s in conns;
      CountedIsFresh(h, t, ports, s);
      if Fresh(h, ports, s) {
        FreshIsNew(h, ports, conns, now);
      }
    }
  }

  /** One fresh sample of a later dump: the credit matches the observation. */
  lemma SampleBalances(h: History, credited: map<Key, Bytes>, t: Tracker, seen: map<Cookie, Seen>, t': Tracker, ports: set<int>, s: Sample)
    requires Windows(h, t) && Partition(h) && h.lastDump.Some? && (Visible(s, ports) ==> LegalSample(h, s))
    requires Balanced(seen, credited, t') && t' == t.(pending := t'.pending, lost := t'.lost)
    requires Fresh(h, ports, s) ==> (s.cookie in seen <==> s.cookie in h.seen)
    requires Fresh(h, ports, s) && s.cookie in seen ==> seen[s.cookie] == h.seen[s.cookie]
    ensures Balanced(if Fresh(h, ports, s) then Observe(seen, s, false) else seen, credited, CreditSample(t', ports, s))
  {
    CountedIsFresh(h, t, ports, s);
    if Fresh(h, ports, s) {
      BaselineIsLast(h, t, s);
      assert Baseline(t', s.cookie) == Baseline(t, s.cookie) && t'.lastSample.Some?;
      hide Balanced, Windows, Partition, AddPending, Baseline, Observe, DeltaBytes, KeyOf;
      CreditBalances(seen, credited, t', s, Baseline(t, s.cookie));
    }
  }

  /** A later dump, sample by sample. */
  lemma {:induction false} DumpBalances(h: History, credited: map<Key, Bytes>, t: Tracker, ports: set<int>, conns: seq<Sample>, now: int)
    requires Inv(h, credited, t) && h.lastDump.Some? && Legal(h, Dump(conns, ports, now))
    ensures Balanced(ObserveAll(h, ports, conns), credited, CreditAll(t, ports, conns))
    decreases |conns|
  {
    hide Balanced, Windows, Partition, AddPending, CreditSample, Observe, LegalSample, PresentIn, Visible;
    if conns != [] {
      var front, s := conns[..|conns| - 1], conns[|conns| - 1];
      LegalFront(h, ports, conns, now);
      DumpBalances(h, credited, t, ports, front, now);
      ObservedByDump(h, ports, front, now);
      SamplesKeepBaselines(t, ports, front);
      if Fresh(h, ports, s) {
        FreshIsNew(h, ports, conns, now);
      }
      assert s in conns;
      SampleBalances(h, credited, t, ObserveAll(h, ports, front), CreditAll(t, ports, front), ports, s);
    }
  }

  /** The first dump credits nothing, and its connections start at what they show. */
  lemma {:induction false} FirstDumpBalances(h: History, credited: map<Key, Bytes>, t: Tracker, ports: set<int>, conns: seq<Sample>, now: int)
    requires Inv(h, credited, t) && h.lastDump.None? && Legal(h, Dump(conns, ports, now))
    ensures CreditAll(t, ports, conns) == t
    ensures Balanced(ObserveAll(h, ports, conns), credited, t)
    decreases |conns|
  {
    if conns != [] {
      var front, s := conns[..|conns| - 1], conns[|conns| - 1];
      assert conns == front + [s] && s in conns;
      LegalFront(h, ports, conns, now);
      FirstDumpBalances(h, credited, t, ports, front, now);
      if Fresh(h, ports, s) {
        FreshIsNew(h, ports, conns, now);
        ObservedByDump(h, ports, front, now);
        var seen := ObserveAll(h, ports, front);
        forall key, up {
          TotalObserve(seen, s, true, key, up);
        }
      }
    }
  }

  lemma DumpKeepsWindows(h: History, t: Tracker, ports: set<int>, conns: seq<Sample>, now: int)
    requires Windows(h, t) && Partition(h) && Legal(h, Dump(conns, ports, now))
    ensures Windows(AfterEvent(h, Dump(conns, ports, now)), AfterDump(t, conns, ports, now))
    ensures Partition(AfterEvent(h, Dump(conns, ports, now)))
  {
    ObservedByDump(h, ports, conns, now);
    CurrentIsPresent(h, t, ports, conns, now);
    DumpKeepsPresent(h, t, ports, conns, now);
    DumpKeepsClosed(h, t, ports, conns, now);
    DumpKeepsGone(h, t, ports, conns, now);
    DumpKeepsPartition(h, ports, conns, now);
    hide ClosedWindow, PresentWindow, GoneWindow, Partition, AfterEvent, AfterDump, Legal;
  }

  lemma DumpKeepsPresent(h: History, t: Tracker, ports: set<int>, conns: seq<Sample>, now: int)
    requires Windows(h, t) && Legal(h, Dump(conns, ports, now))
    ensures PresentWindow(AfterEvent(h, Dump(conns, ports, now)), AfterDump(t, conns, ports, now))
  {
    ObservedByDump(h, ports, conns, now);
    CurrentIsPresent(h, t, ports, conns, now);
    hide ObserveAll, CurrentOf, CreditAll, NextGone, NextClosed, Legal, Windows;
    var seen, cur := ObserveAll(h, ports, conns), CurrentOf(t, ports, conns);
    forall c | c in cur
      ensures c in seen && cur[c] == seen[c].last
    {
      assert c in PresentIn(h, ports, conns);
      var s :| s in conns && Fresh(h, ports, s) && s.cookie == c;
    }
  }

  lemma DumpKeepsClosed(h: History, t: Tracker, ports: set<int>, conns: seq<Sample>, now: int)
    requires Windows(h, t) && Partition(h) && Legal(h, Dump(conns, ports, now))
    ensures ClosedWindow(AfterEvent(h, Dump(conns, ports, now)), AfterDump(t, conns, ports, now))
  {
    hide ObserveAll, CurrentOf, CreditAll, NextGone, PresentIn, PresentWindow, GoneWindow;
  }

  lemma DumpKeepsGone(h: History, t: Tracker, ports: set<int>, conns: seq<Sample>, now: int)
    requires Windows(h, t) && Partition(h) && Legal(h, Dump(conns, ports, now))
    ensures GoneWindow(AfterEvent(h, Dump(conns, ports, now)), AfterDump(t, conns, ports, now))
  {
    ObservedByDump(h, ports, conns, now);
    CurrentIsPresent(h, t, ports, conns, now);
    hide ObserveAll, CurrentOf, CreditAll, NextClosed, PresentIn, ClosedWindow;
    GoneStep(h, t, AfterEvent(h, Dump(conns, ports, now)), CurrentOf(t, ports, conns), now);
  }

  /** One round of absences: the previous ones that stay away, and the present ones that are not in the new dump. */
  lemma GoneStep(h: History, t: Tracker, h': History, cur: map<Cookie, Bytes>, now: int)
    requires PresentWindow(h, t) && GoneWindow(h, t) && Partition(h) && (h.lastDump.Some? ==> h.lastDump.value <= now)
    requires h'.lastDump == Some(now)
    requires forall c :: c in h'.absentAt <==> c in h.absentAt.Keys + h.present && c !in cur
    requires forall c :: c in h'.absentAt ==> h'.absentAt[c] == if c in h.present then now else h.absentAt[c]
    requires forall c :: c in h.seen && c !in cur ==> c in h'.seen && h'.seen[c].last == h.seen[c].last
    ensures forall c :: c in NextGone(t, cur, now) <==> c in h'.absentAt && now - h'.absentAt[c] <= GONE_RETENTION
    ensures forall c :: c in NextGone(t, cur, now) ==> c in h'.seen && NextGone(t, cur, now)[c] == GoneConn(h'.seen[c].last, h'.absentAt[c])
  {
  }

  lemma DumpKeepsPartition(h: History, ports: set<int>, conns: seq<Sample>, now: int)
    requires Partition(h) && Legal(h, Dump(conns, ports, now))
    ensures Partition(AfterEvent(h, Dump(conns, ports, now)))
  {
    ObservedByDump(h, ports, conns, now);
    hide ObserveAll, Legal;
    var present := PresentIn(h, ports, conns);
    assert forall c :: c in present ==> c !in h.closedAt;
    hide PresentIn;
  }

  lemma DumpKeepsInv(h: History, credited: map<Key, Bytes>, t: Tracker, ports: set<int>, conns: seq<Sample>, now: int)
    requires Inv(h, credited, t) && Legal(h, Dump(conns, ports, now))
    ensures Inv(AfterEvent(h, Dump(conns, ports, now)), credited, AfterDump(t, conns, ports, now))
  {
    DumpKeepsWindows(h, t, ports, conns, now);
    if h.lastDump.Some? {
      DumpBalances(h, credited, t, ports, conns, now);
    } else {
      FirstDumpBalances(h, credited, t, ports, conns, now);
    }
  }

  lemma CloseKeepsInv(h: History, credited: map<Key, Bytes>, t: Tracker, c: Sample, now: int)
    requires Inv(h, credited, t) && Legal(h, Close(c, now))
    ensures Inv(AfterEvent(h, Close(c, now)), credited, AfterClose(t, c, now))
  {
    if h.lastDump.Some? {
      CountedIsFresh(h, t, h.ports, c);
      if Fresh(h, h.ports, c) {
        BaselineIsLast(h, t, c);
        CreditBalances(h.seen, credited, t, c, Baseline(t, c.cookie));
        CloseKeepsWindows(h, t, c, now);
      }
    }
  }

  lemma CloseKeepsWindows(h: History, t: Tracker, c: Sample, now: int)
    requires Windows(h, t) && Partition(h) && h.lastDump.Some? && Fresh(h, h.ports, c)
    requires h.lastDump.value - now <= CLOSED_RETENTION && Noticed(t, c)
    ensures Windows(AfterEvent(h, Close(c, now)), AfterClose(t, c, now))
    ensures Partition(AfterEvent(h, Close(c, now)))
  {
    var t' := AfterClose(t, c, now);
    assert t' == t.(pending := t'.pending, lost := t'.lost,
                    closed := t.closed[c.cookie := now], prev := t.prev - {c.cookie}, gone := t.gone - {c.cookie});
    hide AddPending, AfterClose, Baseline, DeltaBytes, KeyOf, Normalize, Noticed;
    var h' := AfterEvent(h, Close(c, now));
    assert h' == h.(seen := Observe(h.seen, c, false), closedAt := h.closedAt[c.cookie := now],
                    present := h.present - {c.cookie}, absentAt := h.absentAt - {c.cookie});
    CloseWindows(h, t, c, now, h', t');
  }

  lemma CloseWindows(h: History, t: Tracker, c: Sample, now: int, h': History, t': Tracker)
    requires Windows(h, t) && Partition(h) && h.lastDump.Some? && h.lastDump.value - now <= CLOSED_RETENTION
    requires t' == t.(pending := t'.pending, lost := t'.lost,
                      closed := t.closed[c.cookie := now], prev := t.prev - {c.cookie}, gone := t.gone - {c.cookie})
    requires h' == h.(seen := Observe(h.seen, c, false), closedAt := h.closedAt[c.cookie := now],
                      present := h.present - {c.cookie}, absentAt := h.absentAt - {c.cookie})
    ensures Windows(h', t') && Partition(h')
  {
    ClosePartition(h, c, now, h');
    hide Partition;
    assert forall k :: k != c.cookie ==> (k in h'.seen <==> k in h.seen) && (k in h.seen ==> h'.seen[k] == h.seen[k]);
    hide Observe;
    ForgetPresent(h, t, c.cookie, h', t');
    ForgetGone(h, t, c.cookie, h', t');
    hide PresentWindow, GoneWindow;
  }

  lemma ClosePartition(h: History, c: Sample, now: int, h': History)
    requires Partition(h) && h.lastDump.Some?
    requires h' == h.(seen := Observe(h.seen, c, false), closedAt := h.closedAt[c.cookie := now],
                      present := h.present - {c.cookie}, absentAt := h.absentAt - {c.cookie})
    ensures Partition(h')
  {
  }

  lemma ForgetPresent(h: History, t: Tracker, gone: Cookie, h': History, t': Tracker)
    requires PresentWindow(h, t) && t'.prev == t.prev - {gone} && h'.present == h.present - {gone}
    requires t'.ports == t.ports && t'.lastSample == t.lastSample && h'.ports == h.ports && h'.lastDump == h.lastDump
    requires forall k :: k != gone && k in h.seen ==> k in h'.seen && h'.seen[k] == h.seen[k]
    ensures PresentWindow(h', t')
  {
  }

  lemma ForgetGone(h: History, t: Tracker, gone: Cookie, h': History, t': Tracker)
    requires GoneWindow(h, t) && t'.gone == t.gone - {gone} && h'.absentAt == h.absentAt - {gone} && h'.lastDump == h.lastDump
    requires forall k :: k != gone && k in h.seen ==> k in h'.seen && h'.seen[k] == h.seen[k]
    ensures GoneWindow(h', t')
  {
  }

  /** Handing the pending bytes on moves them, and leaves every sum as it was. */
  function HandOn(credited: map<Key, Bytes>, pending: map<Key, Bytes>): map<Key, Bytes> {
    map k | k in credited.Keys + pending.Keys :: Plus(Get(credited, k), Get(pending, k))
  }

  lemma HandOnAmount(credited: map<Key, Bytes>, pending: map<Key, Bytes>, key: Key, up: bool)
    ensures Amount(HandOn(credited, pending), key, up) == Amount(credited, key, up) + Amount(pending, key, up)
  {
  }

  lemma EmptyAmount(key: Key, up: bool)
    ensures Amount(map[], key, up) == 0
  {
  }

  lemma DrainKeepsInv(h: History, credited: map<Key, Bytes>, t: Tracker)
    requires Inv(h, credited, t)
    ensures Inv(h, HandOn(credited, t.pending), t.(pending := map[]))
  {
    hide HandOn, Amount;
    var t' := t.(pending := map[]);
    forall key, up
      ensures Amount(HandOn(credited, t.pending), key, up) + Amount(t'.pending, key, up) + Amount(t'.lost, key, up) ==
              Total(h.seen, key, up)
    {
      HandOnAmount(credited, t.pending, key, up);
      EmptyAmount(key, up);
    }
    assert Balanced(h.seen, HandOn(credited, t.pending), t');
    hide Balanced, Partition;
  }

  // ----- runs

  datatype Run = Run(h: History, credited: map<Key, Bytes>, t: Tracker)

  function Start(): Run {
    Run(History(map[], None, {}, {}, map[], map[]), map[], Initial())
  }

  function Step(r: Run, e: Event): Run {
    Run(AfterEvent(r.h, e),
        if e.Drain? then HandOn(r.credited, r.t.pending) else r.credited,
        match e
        case Drain => r.t.(pending := map[])
        case Dump(conns, ports, now) => AfterDump(r.t, conns, ports, now)
        case Close(c, now) => AfterClose(r.t, c, now))
  }

  function RunOf(events: seq<Event>): Run {
    if events == [] then Start() else Step(RunOf(events[..|events| - 1]), events[|events| - 1])
  }

  ghost predicate LegalRun(events: seq<Event>) {
    forall i :: 0 <= i < |events| ==> Legal(RunOf(events[..i]).h, events[i])
  }

  lemma LegalPrefix(events: seq<Event>)
    requires events != [] && LegalRun(events)
    ensures LegalRun(events[..|events| - 1]) && Legal(RunOf(events[..|events| - 1]).h, events[|events| - 1])
  {
    hide Legal, RunOf;
    var front := events[..|events| - 1];
    forall i | 0 <= i < |front|
      ensures Legal(RunOf(front[..i]).h, front[i])
    {
      assert front[..i] == events[..i];
    }
  }

  lemma {:induction false} RunKeepsInv(events: seq<Event>)
    requires LegalRun(events)
    ensures var r := RunOf(events); Inv(r.h, r.credited, r.t)
  {
    if events != [] {
      var front, e := events[..|events| - 1], events[|events| - 1];
      LegalPrefix(events);
      RunKeepsInv(front);
      StepKeepsInv(RunOf(front), e);
      hide Inv, Legal, LegalRun, Step;
    } else {
      assert Inv(Start().h, Start().credited, Start().t);
    }
  }

  lemma StepKeepsInv(r: Run, e: Event)
    requires Inv(r.h, r.credited, r.t) && Legal(r.h, e)
    ensures var r' := Step(r, e); Inv(r'.h, r'.credited, r'.t)
  {
    match e
    case Drain => DrainKeepsInv(r.h, r.credited, r.t);
    case Dump(conns, ports, now) =>
      DumpKeepsInv(r.h, r.credited, r.t, ports, conns, now);
      hide Inv, Legal, AfterEvent, AfterDump, AfterClose;
    case Close(c, now) =>
      CloseKeepsInv(r.h, r.credited, r.t, c, now);
      hide Inv, Legal, AfterEvent, AfterDump, AfterClose;
  }

  /**
   For every legal run, every source and either direction: the bytes handed on, pending or refused are the sum over
   the source's connections of the last seen counter minus where its counting started.
   */
  lemma EveryByteOnce(events: seq<Event>, key: Key, up: bool)
    requires LegalRun(events)
    ensures var r := RunOf(events);
      Amount(r.credited, key, up) + Amount(r.t.pending, key, up) + Amount(r.t.lost, key, up) == Total(r.h.seen, key, up)
  {
    RunKeepsInv(events);
  }

  /** After a drain nothing is pending: what was handed on is everything but what the full table refused. */
  lemma DrainedByteOnce(events: seq<Event>, key: Key, up: bool)
    requires LegalRun(events + [Drain])
    ensures var r := RunOf(events + [Drain]);
      Amount(r.credited, key, up) + Amount(r.t.lost, key, up) == Total(r.h.seen, key, up)
  {
    EveryByteOnce(events + [Drain], key, up);
    assert (events + [Drain])[..|events|] == events;
  }

  /** Bytes are only ever refused while the pending table is full, and only for a source it does not hold. */
  lemma LossNeedsFullTable(t: Tracker, key: Key, b: Bytes)
    ensures AddPending(t, key, b).lost != t.lost ==> |t.pending| >= PENDING_MAX_KEYS && key !in t.pending
    ensures AddPending(t, key, b).lost == t.lost ==>
      forall k, up :: Amount(AddPending(t, key, b).pending, k, up) ==
                      Amount(t.pending, k, up) + if k == key then Part(b, up) else 0
  {
    if AddPending(t, key, b).lost == t.lost && b != ZERO {
      assert t.lost[key := Plus(Get(t.lost, key), b)][key] != Get(t.lost, key);
    }
  }
}
