/** Every log row is counted at most once per rule, and exactly once by a rule that keeps its class. */
module AnomalyOnce {
  import opened Anomaly

  // ----- batches

  lemma {:induction false} LaterRows(log: seq<Row>, cursor: Pos)
    requires Ascending(log)
    ensures Ascending(Later(log, cursor))
    ensures forall r :: r in Later(log, cursor) <==> r in log && Less(cursor, r.pos)
  {
    if log != [] {
      var front, last := log[..|log| - 1], log[|log| - 1];
      assert log == front + [last];
      LaterRows(front, cursor);
      var f := Later(front, cursor);
      forall i | 0 <= i < |f|
        ensures Less(f[i].pos, last.pos)
      {
        assert f[i] in front;
        var j :| 0 <= j < |front| && front[j] == f[i];
        assert log[j] == f[i];
      }
    }
  }

  /** A batch holds exactly the rows after the cursor up to where it ends. */
  lemma BatchRows(log: seq<Row>, cursor: Pos)
    requires Ascending(log)
    ensures var rows := ReadAfter(log, cursor); var next := NextCursor(cursor, rows);
      && Ascending(rows) && !Less(next, cursor)
      && (forall r :: r in rows <==> r in log && Less(cursor, r.pos) && !Less(next, r.pos))
      && |rows| <= 20_000 && (|rows| < 20_000 ==> forall r <- log :: Less(cursor, r.pos) ==> r in rows)
  {
    LaterRows(log, cursor);
    var all, rows := Later(log, cursor), ReadAfter(log, cursor);
    hide Later;
    assert forall i :: 0 <= i < |rows| ==> rows[i] == all[i];
    if rows != [] {
      var n := |rows|;
      assert rows[n - 1] in all;
      forall r
        ensures r in rows <==> r in all && !Less(rows[n - 1].pos, r.pos)
      {
        if r in all {
          var i :| 0 <= i < |all| && all[i] == r;
          assert i < n ==> rows[i] == r;
        }
      }
    }
  }

  lemma {:induction false} HitRows(s: Snapshot, p: Plan, rows: seq<Row>)
    requires Ascending(rows)
    ensures Ascending(HitsOf(s, p, rows)) && forall r :: r in HitsOf(s, p, rows) <==> r in rows && Hit(s, p, r)
  {
    hide Hit;
    if rows != [] {
      var front, last := rows[..|rows| - 1], rows[|rows| - 1];
      assert rows == front + [last];
      HitRows(s, p, front);
      var f := HitsOf(s, p, front);
      forall i | 0 <= i < |f|
        ensures Less(f[i].pos, last.pos)
      {
        assert f[i] in front;
        var j :| 0 <= j < |front| && front[j] == f[i];
        assert rows[j] == f[i];
      }
    }
  }

  /** The tally of distinct rows counts positions. */
  lemma {:induction false} TallyCounts(hits: seq<Row>, hour: int)
    requires Ascending(hits)
    ensures CountAt(Tally(hits), hour) == |InHour(PosOf(hits), hour)|
  {
    if hits != [] {
      var front, last := hits[..|hits| - 1], hits[|hits| - 1];
      assert hits == front + [last];
      TallyCounts(front, hour);
      NewPos(hits);
      TallyStep(hits, hour);
      hide Tally, PosOf, InHour, CountAt, HourOf;
      OneMoreInHour(PosOf(front), last.pos, hour);
    } else {
      assert InHour(PosOf(hits), hour) == {};
    }
  }

  lemma OneMoreInHour(s: set<Pos>, x: Pos, hour: int)
    requires x !in s
    ensures |InHour(s + {x}, hour)| == |InHour(s, hour)| + if HourOf(x.time) == hour then 1 else 0
  {
    hide HourOf;
    assert InHour(s + {x}, hour) == if HourOf(x.time) == hour then InHour(s, hour) + {x} else InHour(s, hour);
  }

  lemma TallyStep(hits: seq<Row>, hour: int)
    requires hits != []
    ensures var front, last := hits[..|hits| - 1], hits[|hits| - 1];
      CountAt(Tally(hits), hour) == CountAt(Tally(front), hour) + if HourOf(last.pos.time) == hour then 1 else 0
  {
  }

  lemma NewPos(hits: seq<Row>)
    requires hits != [] && Ascending(hits)
    ensures hits[|hits| - 1].pos !in PosOf(hits[..|hits| - 1])
    ensures PosOf(hits) == PosOf(hits[..|hits| - 1]) + {hits[|hits| - 1].pos}
  {
    var front, last := hits[..|hits| - 1], hits[|hits| - 1];
    assert hits == front + [last];
    forall r | r in front
      ensures r.pos != last.pos
    {
      var i :| 0 <= i < |front| && front[i] == r;
      assert Less(hits[i].pos, last.pos);
    }
  }

  lemma HoursAdd(s: set<Pos>, u: set<Pos>, hour: int)
    requires s !! u
    ensures |InHour(s + u, hour)| == |InHour(s, hour)| + |InHour(u, hour)|
  {
    assert InHour(s + u, hour) == InHour(s, hour) + InHour(u, hour);
    assert InHour(s, hour) !! InHour(u, hour);
  }

  lemma MergedCounts(a: Counts, b: Counts, hour: int)
    ensures CountAt(Merged(a, b), hour) == CountAt(a, hour) + CountAt(b, hour)
  {
  }

  // ----- committing

  predicate DistinctRules(plans: seq<Plan>) {
    forall i, j :: 0 <= i < j < |plans| ==> plans[i].ruleId != plans[j].ruleId
  }

  /** What a rule counts in a batch was never counted while its watermark stood. */
  lemma HitsAreNew(a: Audit, s: Snapshot, p: Plan, rows: seq<Row>)
    requires Ascending(rows) && BelowMark(a, p.ruleId)
    requires p.ruleId in a.marks ==> p.ruleId in s.marks && s.marks[p.ruleId] == a.marks[p.ruleId]
    ensures PosOf(HitsOf(s, p, rows)) !! SetOf(a.ever, p.ruleId)
    ensures PosOf(HitsOf(s, p, rows)) !! SetOf(a.counted, p.ruleId)
  {
    HitRows(s, p, rows);
    hide HitsOf;
    forall x | x in PosOf(HitsOf(s, p, rows))
      ensures x !in SetOf(a.ever, p.ruleId)
    {
      var r :| r in HitsOf(s, p, rows) && r.pos == x;
      assert Hit(s, p, r);
    }
  }

  lemma CommitKeepsMark(a: Audit, s: Snapshot, p: Plan, rows: seq<Row>, next: Pos)
    requires Ascending(rows) && BelowMark(a, p.ruleId) && forall r <- rows :: !Less(next, r.pos)
    ensures BelowMark(CommitRule(a, s, p, rows, next), p.ruleId)
  {
    HitRows(s, p, rows);
    var b := CommitRule(a, s, p, rows, next);
    var hits := PosOf(HitsOf(s, p, rows));
    forall x | x in hits
      ensures !Less(next, x) && x.time >= IgnoreOf(s.ignore, p.ruleId)
    {
      var r :| r in HitsOf(s, p, rows) && r.pos == x;
      assert Hit(s, p, r);
    }
    MarkRises(a, p, next);
    CommitSets(a, s, p, rows, next);
    hide HitsOf, Tally, Merged, PosOf, Less, CommitRule, SetOf;
  }

  /** The rule's sets and watermark after the commit. */
  lemma CommitSets(a: Audit, s: Snapshot, p: Plan, rows: seq<Row>, next: Pos)
    ensures var b, hits := CommitRule(a, s, p, rows, next), PosOf(HitsOf(s, p, rows));
      && p.ruleId in b.marks && b.ignore == a.ignore
      && b.marks[p.ruleId] == (if p.ruleId in a.marks && !Less(a.marks[p.ruleId], next) then a.marks[p.ruleId] else next)
      && (if IgnoreOf(a.ignore, p.ruleId) == IgnoreOf(s.ignore, p.ruleId)
          then SetOf(b.counted, p.ruleId) == SetOf(a.counted, p.ruleId) + hits && SetOf(b.ever, p.ruleId) == SetOf(a.ever, p.ruleId) + hits
          else SetOf(b.counted, p.ruleId) == SetOf(a.counted, p.ruleId) && SetOf(b.ever, p.ruleId) == SetOf(a.ever, p.ruleId))
  {
    hide HitsOf, Tally, Merged, Less;
    if HitsOf(s, p, rows) == [] {
      assert PosOf(HitsOf(s, p, rows)) == {};
      assert SetOf(a.counted, p.ruleId) + {} == SetOf(a.counted, p.ruleId);
      assert SetOf(a.ever, p.ruleId) + {} == SetOf(a.ever, p.ruleId);
    }
  }

  lemma MarkRises(a: Audit, p: Plan, next: Pos)
    ensures var mark := if p.ruleId in a.marks && !Less(a.marks[p.ruleId], next) then a.marks[p.ruleId] else next;
      && (forall x :: !Less(next, x) ==> !Less(mark, x))
      && (p.ruleId in a.marks ==> forall x :: !Less(a.marks[p.ruleId], x) ==> !Less(mark, x))
  {
  }

  lemma CommitKeepsSums(a: Audit, s: Snapshot, p: Plan, rows: seq<Row>, next: Pos)
    requires Ascending(rows) && BelowMark(a, p.ruleId) && SumsRight(a, p.ruleId)
    requires p.ruleId in a.marks ==> p.ruleId in s.marks && s.marks[p.ruleId] == a.marks[p.ruleId]
    ensures SumsRight(CommitRule(a, s, p, rows, next), p.ruleId)
  {
    HitsAreNew(a, s, p, rows);
    HitRows(s, p, rows);
    var hits := HitsOf(s, p, rows);
    var sums := SumsFor(a, p.ruleId);
    hide HitsOf, Hit, BelowMark;
    forall h | h >= a.cut
      ensures CountAt(Merged(sums, Tally(hits)), h) == |InHour(SetOf(a.counted, p.ruleId) + PosOf(hits), h)|
    {
      TallyCounts(hits, h);
      HoursAdd(SetOf(a.counted, p.ruleId), PosOf(hits), h);
      MergedCounts(sums, Tally(hits), h);
    }
    hide Merged, Tally, InHour, PosOf, Less;
  }

  lemma OtherRules(a: Audit, s: Snapshot, p: Plan, rows: seq<Row>, next: Pos, rule: int)
    requires rule != p.ruleId
    ensures var b := CommitRule(a, s, p, rows, next);
      && SetOf(b.counted, rule) == SetOf(a.counted, rule) && SetOf(b.ever, rule) == SetOf(a.ever, rule)
      && (rule in b.marks <==> rule in a.marks) && (rule in a.marks ==> b.marks[rule] == a.marks[rule])
      && (rule in b.sums <==> rule in a.sums) && (rule in a.sums ==> b.sums[rule] == a.sums[rule])
      && b.ignore == a.ignore && b.cut == a.cut
  {
    hide HitsOf, Tally, Merged, PosOf, Less;
  }

  lemma CommitRuleKeepsInv(a: Audit, s: Snapshot, p: Plan, rows: seq<Row>, next: Pos)
    requires Ascending(rows) && Inv(a) && forall r <- rows :: !Less(next, r.pos)
    requires p.ruleId in a.marks ==> p.ruleId in s.marks && s.marks[p.ruleId] == a.marks[p.ruleId]
    ensures Inv(CommitRule(a, s, p, rows, next))
  {
    var b := CommitRule(a, s, p, rows, next);
    forall r
      ensures BelowMark(b, r) && SumsRight(b, r)
    {
      assert BelowMark(a, r) && SumsRight(a, r);
      if r == p.ruleId {
        CommitKeepsMark(a, s, p, rows, next);
        CommitKeepsSums(a, s, p, rows, next);
      } else {
        OtherRules(a, s, p, rows, next, r);
      }
      hide CommitRule;
    }
  }

  predicate SameMarks(a: Audit, b: Audit, rule: int) {
    (rule in b.marks <==> rule in a.marks) && (rule in a.marks ==> b.marks[rule] == a.marks[rule])
  }

  ghost predicate Elsewhere(plans: seq<Plan>, rule: int) {
    forall p <- plans :: p.ruleId != rule
  }

  lemma CommitFrame(a: Audit, s: Snapshot, p: Plan, rows: seq<Row>, next: Pos)
    ensures var b := CommitRule(a, s, p, rows, next);
      && b.ignore == a.ignore && b.small == a.small && b.large == a.large && b.epoch == a.epoch && b.cut == a.cut
      && forall r :: r != p.ruleId ==> SameMarks(a, b, r)
  {
    hide HitsOf, Tally, Merged, PosOf, Less, SetOf, IgnoreOf;
  }

  /** A whole batch keeps everything, rule by rule. */
  lemma {:induction false} CommitKeepsInv(a: Audit, s: Snapshot, plans: seq<Plan>, rows: seq<Row>, next: Pos)
    requires Ascending(rows) && Inv(a) && DistinctRules(plans) && forall r <- rows :: !Less(next, r.pos)
    requires forall r :: r in a.marks ==> r in s.marks && s.marks[r] == a.marks[r]
    ensures var b := CommitAll(a, s, plans, rows, next);
      && Inv(b) && b.ignore == a.ignore && b.small == a.small && b.large == a.large && b.epoch == a.epoch && b.cut == a.cut
      && forall r :: Elsewhere(plans, r) ==> SameMarks(a, b, r)
  {
    hide Inv, CommitRule, Ascending, Less;
    if plans != [] {
      var front, p := plans[..|plans| - 1], plans[|plans| - 1];
      LastRule(plans);
      CommitKeepsInv(a, s, front, rows, next);
      var b := CommitAll(a, s, front, rows, next);
      assert SameMarks(a, b, p.ruleId);
      CommitRuleKeepsInv(b, s, p, rows, next);
      CommitFrame(b, s, p, rows, next);
      var c := CommitRule(b, s, p, rows, next);
      forall r | Elsewhere(plans, r)
        ensures SameMarks(a, c, r)
      {
        assert SameMarks(a, b, r) && SameMarks(b, c, r);
      }
    }
  }

  lemma LastRule(plans: seq<Plan>)
    requires plans != [] && DistinctRules(plans)
    ensures var front, p := plans[..|plans| - 1], plans[|plans| - 1];
      && plans == front + [p] && DistinctRules(front) && (forall q <- front :: q.ruleId != p.ruleId && q in plans) && p in plans
  {
    var front, p := plans[..|plans| - 1], plans[|plans| - 1];
    forall q | q in front
      ensures q.ruleId != p.ruleId
    {
      var i :| 0 <= i < |front| && front[i] == q;
      assert plans[i] == q;
    }
  }

  // ----- the other steps

  lemma PruneOne(a: Audit, enabled: set<int>, exist: set<int>, now: Moment, r: int)
    requires BelowMark(a, r) && SumsRight(a, r)
    ensures BelowMark(Pruned(a, enabled, exist, now), r) && SumsRight(Pruned(a, enabled, exist, now), r)
  {
    var b := Pruned(a, enabled, exist, now);
    hide InHour, Less, HourOf;
    assert SetOf(b.counted, r) == if r in enabled then SetOf(a.counted, r) else {};
    assert SetOf(b.ever, r) == if r in enabled then SetOf(a.ever, r) else {};
    if r !in enabled {
      NothingInHours();
    } else {
      PrunedCounts(a, enabled, exist, now, r);
    }
    hide Pruned;
  }

  lemma NothingInHours()
    ensures forall h :: InHour({}, h) == {}
  {
  }

  lemma PrunedCounts(a: Audit, enabled: set<int>, exist: set<int>, now: Moment, r: int)
    requires r in enabled
    ensures var b := Pruned(a, enabled, exist, now);
      forall h :: h >= b.cut ==> CountAt(SumsFor(b, r), h) == CountAt(SumsFor(a, r), h)
  {
    hide HourOf, InHour;
    var cutoff := CutoffOf(now);
    if r in a.sums {
      var kept := Recent(a.sums[r], cutoff);
      assert forall h :: h >= cutoff ==> CountAt(kept, h) == CountAt(a.sums[r], h);
    }
  }

  lemma PruneKeepsInv(a: Audit, enabled: set<int>, exist: set<int>, now: Moment)
    requires Inv(a)
    ensures Inv(Pruned(a, enabled, exist, now))
  {
    var b := Pruned(a, enabled, exist, now);
    forall r
      ensures BelowMark(b, r) && SumsRight(b, r)
    {
      assert BelowMark(a, r) && SumsRight(a, r);
      PruneOne(a, enabled, exist, now, r);
    }
    hide BelowMark, SumsRight, Pruned;
  }

  lemma ResetKeepsInv(a: Audit, rule: int, now: int)
    requires Inv(a)
    ensures Inv(Reset(a, rule, now))
  {
    var b := Reset(a, rule, now);
    NothingInHours();
    forall r
      ensures BelowMark(b, r) && SumsRight(b, r)
    {
      assert BelowMark(a, r) && SumsRight(a, r);
      hide InHour, Less;
    }
    hide BelowMark, SumsRight, Reset;
  }

  lemma ClearKeepsInv(a: Audit)
    ensures Inv(Cleared(a))
  {
    NothingInHours();
    hide InHour, Less;
  }

  lemma {:induction false} InterruptsKeepInv(a: Audit, during: seq<Interrupt>)
    requires Inv(a)
    ensures var b := Interrupted(a, during);
      Inv(b) && b.epoch >= a.epoch && (b.epoch == a.epoch ==> b.marks == a.marks && b.cut == a.cut)
  {
    if during != [] {
      hide Inv;
      InterruptsKeepInv(a, during[..|during| - 1]);
      var b := Interrupted(a, during[..|during| - 1]);
      match during[|during| - 1]
      case ResetRule(rule, now) => ResetKeepsInv(b, rule, now);
      case SwitchOff => ClearKeepsInv(b);
    }
  }

  lemma CursorKeepsInv(a: Audit, large: bool, c: Pos)
    requires Inv(a)
    ensures Inv(WithCursor(a, large, c))
  {
    hide Less, InHour, HourOf;
    var b := WithCursor(a, large, c);
    forall r
      ensures BelowMark(b, r) && SumsRight(b, r)
    {
      assert BelowMark(a, r) && SumsRight(a, r);
    }
  }

  lemma {:induction false} ClassPlans(plans: seq<Plan>, large: bool)
    requires DistinctRules(plans)
    ensures DistinctRules(OfClass(plans, large))
    ensures forall p :: p in OfClass(plans, large) <==> p in plans && p.large == large
  {
    if plans != [] {
      var front, last := plans[..|plans| - 1], plans[|plans| - 1];
      LastRule(plans);
      ClassPlans(front, large);
      var f := OfClass(front, large);
      assert forall i :: 0 <= i < |f| ==> f[i] in f;
    }
  }

  /** A scan of either class, with resets and a switch-off in between at will, keeps everything. */
  lemma ScanKeepsInv(a: Audit, log: seq<Row>, plans: seq<Plan>, enabled: set<int>, exist: set<int>, large: bool,
                     now: Moment, during: seq<Interrupt>)
    requires Inv(a) && Ascending(log) && DistinctRules(plans)
    ensures Inv(AfterScan(a, log, plans, enabled, exist, large, now, during))
  {
    hide Inv, Pruned, Ascending, Less, CommitAll, WithCursor, OfClass, ReadAfter;
    var b, mine := Pruned(a, enabled, exist, now), OfClass(plans, large);
    PruneKeepsInv(a, enabled, exist, now);
    CursorKeepsInv(b, large, ORIGIN);
    var start, s := StartOf(b, large, now), Snapshot(CutoffOf(now), b.ignore, b.marks);
    var rows := ReadAfter(log, start);
    BatchRows(log, start);
    var next := NextCursor(start, rows);
    InterruptsKeepInv(b, during);
    var c := Interrupted(b, during);
    CursorKeepsInv(c, large, next);
    SameMarksWithCursor(c, large, next);
    ClassPlans(plans, large);
    if c.epoch == b.epoch {
      CommitKeepsInv(WithCursor(c, large, next), s, mine, rows, next);
    }
  }

  lemma UnreadScanKeepsInv(a: Audit, plans: seq<Plan>, enabled: set<int>, exist: set<int>, large: bool, now: Moment,
                           during: seq<Interrupt>)
    requires Inv(a)
    ensures Inv(AfterUnreadScan(a, plans, enabled, exist, large, now, during))
  {
    hide Inv, Pruned;
    var b := Pruned(a, enabled, exist, now);
    PruneKeepsInv(a, enabled, exist, now);
    CursorKeepsInv(b, large, ORIGIN);
    InterruptsKeepInv(b, during);
  }

  lemma SameMarksWithCursor(a: Audit, large: bool, c: Pos)
    ensures WithCursor(a, large, c).marks == a.marks
  {
  }

  // ----- runs

  /** The log only grows at its end; a scan sees it as it is then, or fails to read it. */
  datatype Event =
    | Scan(log: seq<Row>, plans: seq<Plan>, enabled: set<int>, exist: set<int>, large: bool, now: Moment, during: seq<Interrupt>)
    | UnreadScan(plans: seq<Plan>, enabled: set<int>, exist: set<int>, large: bool, now: Moment, during: seq<Interrupt>)
    | ResetAnomalies(rule: int, at: int)
    | LogOff

  function After(a: Audit, e: Event): Audit {
    match e
    case Scan(log, plans, enabled, exist, large, now, during) => AfterScan(a, log, plans, enabled, exist, large, now, during)
    case UnreadScan(plans, enabled, exist, large, now, during) => AfterUnreadScan(a, plans, enabled, exist, large, now, during)
    case ResetAnomalies(rule, at) => Reset(a, rule, at)
    case LogOff => Cleared(a)
  }

  function Start(): Audit {
    Audit(ORIGIN, ORIGIN, 0, map[], map[], map[], map[], map[], 0)
  }

  function RunOf(events: seq<Event>): Audit {
    if events == [] then Start() else After(RunOf(events[..|events| - 1]), events[|events| - 1])
  }

  predicate Legal(e: Event) {
    e.Scan? ==> Ascending(e.log) && DistinctRules(e.plans)
  }

  lemma StartInv()
    ensures Inv(Start())
  {
    NothingInHours();
    hide InHour, Less;
  }

  /**
   At most once: in every state of every run, whatever scans of both classes, changes of class, resets, disabled rules
   and switch-offs came before, each hour's sum is the number of different rows counted in it, and all of them lie at
   or below the watermark and not before the ignore time.
   */
  lemma {:induction false} CountedAtMostOnce(events: seq<Event>)
    requires forall e <- events :: Legal(e)
    ensures Inv(RunOf(events))
  {
    if events == [] {
      StartInv();
    } else {
      var front, e := events[..|events| - 1], events[|events| - 1];
      hide Inv, AfterScan, Ascending;
      assert e in events && forall x <- front :: x in events;
      CountedAtMostOnce(front);
      match e
      case Scan(log, plans, enabled, exist, large, now, during) =>
        ScanKeepsInv(RunOf(front), log, plans, enabled, exist, large, now, during);
      case UnreadScan(plans, enabled, exist, large, now, during) =>
        UnreadScanKeepsInv(RunOf(front), plans, enabled, exist, large, now, during);
      case ResetAnomalies(rule, at) => ResetKeepsInv(RunOf(front), rule, at);
      case LogOff => ClearKeepsInv(RunOf(front));
    }
  }

  // ----- exactly once

  /** What a rule means to count, whenever it looks. */
  predicate Wanted(p: Plan, ignoreAt: int, r: Row) {
    && p.matcher.Some? && r.accepted && r.inbound in p.coverage && r.pos.time >= ignoreAt && p.strayed(r)
    && p.matcher.value(r.target)
  }

  ghost predicate Between(p: Plan, ignoreAt: int, log: seq<Row>, lo: Pos, hi: Pos, x: Pos) {
    exists r <- log :: r.pos == x && Less(lo, x) && !Less(hi, x) && Wanted(p, ignoreAt, r)
  }

  /** Everything wanted since the rule was first scanned, up to the cursor of its class, is counted, and nothing else. */
  ghost predicate Exact(a: Audit, p: Plan, log: seq<Row>, lo: Pos) {
    && p.ruleId in a.marks && a.marks[p.ruleId] == CursorOf(a, p.large)
    && (forall x :: x in SetOf(a.counted, p.ruleId) <==>
          Between(p, IgnoreOf(a.ignore, p.ruleId), log, lo, CursorOf(a, p.large), x))
  }

  predicate ResetsRule(during: seq<Interrupt>, rule: int) {
    exists e <- during :: e.ResetRule? && e.rule == rule
  }

  /** A scan of a class without rules is over before anything can come in between. */
  predicate ResetsWithin(plans: seq<Plan>, large: bool, during: seq<Interrupt>, rule: int) {
    OfClass(plans, large) != [] && ResetsRule(during, rule)
  }

  predicate StaysOn(during: seq<Interrupt>) {
    forall e <- during :: e.ResetRule?
  }

  /** Resets of other rules are the only interruptions. */
  predicate Harmless(during: seq<Interrupt>, rule: int) {
    StaysOn(during) && !ResetsRule(during, rule)
  }

  lemma {:induction false} ResetsChange(a: Audit, during: seq<Interrupt>, rule: int)
    requires StaysOn(during)
    ensures var b := Interrupted(a, during);
      && b.epoch == a.epoch && b.marks == a.marks && b.small == a.small && b.large == a.large
      && SetOf(b.counted, rule) == (if ResetsRule(during, rule) then {} else SetOf(a.counted, rule))
      && (!ResetsRule(during, rule) ==> IgnoreOf(b.ignore, rule) == IgnoreOf(a.ignore, rule))
  {
    if during != [] {
      var front, e := during[..|during| - 1], during[|during| - 1];
      assert during == front + [e];
      assert e in during && forall x <- front :: x in during;
      ResetsChange(a, front, rule);
      assert ResetsRule(during, rule) <==> ResetsRule(front, rule) || e.rule == rule;
    }
  }

  /** A batch read from the rule's own watermark or later hits exactly what the rule wants. */
  lemma HitsAreWanted(s: Snapshot, p: Plan, log: seq<Row>, start: Pos, now: Moment)
    requires Ascending(log) && s.cutoff == CutoffOf(now) && !Less(start, FloorOf(now))
    requires p.ruleId in s.marks ==> !Less(start, s.marks[p.ruleId])
    ensures var rows := ReadAfter(log, start); var next := NextCursor(start, rows);
      forall x :: x in PosOf(HitsOf(s, p, rows)) <==> Between(p, IgnoreOf(s.ignore, p.ruleId), log, start, next, x)
  {
    BatchRows(log, start);
    var rows := ReadAfter(log, start);
    HitRows(s, p, rows);
    hide ReadAfter, HitsOf, NextCursor;
    forall r | r in rows
      ensures Hit(s, p, r) <==> Wanted(p, IgnoreOf(s.ignore, p.ruleId), r)
    {
      InWindow(r.pos, start, now);
    }
    hide Hit, Wanted;
  }

  /** Past the floor the hour test holds by itself. */
  lemma InWindow(x: Pos, start: Pos, now: Moment)
    requires Less(start, x) && !Less(start, FloorOf(now))
    ensures HourOf(x.time) >= CutoffOf(now)
  {
    assert x.time >= now - WINDOW_MILLIS;
  }

  /** The window is the last 24 hours. */
  lemma WindowExactly(x: Pos, now: Moment)
    ensures Less(FloorOf(now), x) <==> x.time >= now - 24 * 3_600_000
  {
  }

  /** A finished batch moves one rule's mark to its end and adds the hits, unless the rule was reset meanwhile. */
  lemma {:induction false} CommitOne(a: Audit, s: Snapshot, plans: seq<Plan>, rows: seq<Row>, next: Pos, p: Plan)
    requires DistinctRules(plans) && p in plans
    requires p.ruleId in a.marks ==> !Less(next, a.marks[p.ruleId])
    ensures var b := CommitAll(a, s, plans, rows, next);
      && p.ruleId in b.marks && b.marks[p.ruleId] == next && b.ignore == a.ignore && b.small == a.small && b.large == a.large
      && SetOf(b.counted, p.ruleId) ==
           if IgnoreOf(a.ignore, p.ruleId) == IgnoreOf(s.ignore, p.ruleId)
           then SetOf(a.counted, p.ruleId) + PosOf(HitsOf(s, p, rows)) else SetOf(a.counted, p.ruleId)
  {
    var front, last := plans[..|plans| - 1], plans[|plans| - 1];
    LastRule(plans);
    var b := CommitAll(a, s, front, rows, next);
    hide HitsOf, PosOf;
    if p == last {
      CommitElse(a, s, front, rows, next, p.ruleId);
      CommitSets(b, s, p, rows, next);
      CommitFrame(b, s, p, rows, next);
      SamePlace(b, p, next);
    } else {
      CommitOne(a, s, front, rows, next, p);
      OtherRules(b, s, last, rows, next, p.ruleId);
      CommitFrame(b, s, last, rows, next);
    }
    hide CommitRule, SetOf;
  }

  lemma SamePlace(b: Audit, p: Plan, next: Pos)
    requires p.ruleId in b.marks ==> !Less(next, b.marks[p.ruleId])
    ensures (if p.ruleId in b.marks && !Less(b.marks[p.ruleId], next) then b.marks[p.ruleId] else next) == next
  {
  }

  lemma {:induction false} CommitElse(a: Audit, s: Snapshot, plans: seq<Plan>, rows: seq<Row>, next: Pos, rule: int)
    requires Elsewhere(plans, rule)
    ensures var b := CommitAll(a, s, plans, rows, next);
      && SameMarks(a, b, rule) && SetOf(b.counted, rule) == SetOf(a.counted, rule)
      && b.ignore == a.ignore && b.small == a.small && b.large == a.large
  {
    if plans != [] {
      var front, last := plans[..|plans| - 1], plans[|plans| - 1];
      assert last in plans && forall q <- front :: q in plans;
      hide CommitRule, SetOf;
      CommitElse(a, s, front, rows, next, rule);
      var b := CommitAll(a, s, front, rows, next);
      OtherRules(b, s, last, rows, next, rule);
      CommitFrame(b, s, last, rows, next);
    }
  }

  /** Moving the cursor up to the window passes over nothing that the rule wants. */
  ghost predicate NothingSkipped(a: Audit, p: Plan, log: seq<Row>, now: Moment) {
    forall x :: !Between(p, IgnoreOf(a.ignore, p.ruleId), log, CursorOf(a, p.large), StartOf(a, p.large, now), x)
  }

  /** Scans through which a rule keeps its class and its plan and loses no row, on a log that grows behind the cursor. */
  ghost predicate KeepsRule(a: Audit, e: Event, p: Plan, log: seq<Row>) {
    match e
    case LogOff => false
    case ResetAnomalies(_, _) => true
    case UnreadScan(plans, enabled, exist, large, now, during) =>
      p in plans && p.ruleId in enabled && p.ruleId in exist && DistinctRules(plans) && StaysOn(during)
    case Scan(newLog, plans, enabled, exist, large, now, during) =>
      && Legal(e) && p in plans && p.ruleId in enabled && p.ruleId in exist
      && StaysOn(during) && GrowsBehind(log, newLog, CursorOf(a, p.large))
      && (large == p.large && !ResetsRule(during, p.ruleId) ==> NothingSkipped(a, p, newLog, now))
  }

  ghost predicate GrowsBehind(log: seq<Row>, newLog: seq<Row>, cursor: Pos) {
    && (forall r <- log :: r in newLog)
    && (forall r <- newLog :: r in log || Less(cursor, r.pos))
  }

  function LogAfter(log: seq<Row>, e: Event): seq<Row> {
    if e.Scan? then e.log else log
  }

  lemma PruneKeepsRule(a: Audit, enabled: set<int>, exist: set<int>, now: Moment, rule: int)
    requires rule in enabled && rule in exist
    ensures var b := Pruned(a, enabled, exist, now);
      && SameMarks(a, b, rule) && SetOf(b.counted, rule) == SetOf(a.counted, rule) && b.small == a.small && b.large == a.large
      && IgnoreOf(b.ignore, rule) == IgnoreOf(a.ignore, rule)
  {
  }

  lemma GrownBetween(p: Plan, ignoreAt: int, log: seq<Row>, newLog: seq<Row>, lo: Pos, hi: Pos, x: Pos)
    requires GrowsBehind(log, newLog, hi)
    ensures Between(p, ignoreAt, log, lo, hi, x) <==> Between(p, ignoreAt, newLog, lo, hi, x)
  {
    hide Wanted;
    if r :| r in newLog && r.pos == x && Less(lo, x) && !Less(hi, x) && Wanted(p, ignoreAt, r) {
      assert r in log;
    }
  }

  lemma BetweenJoins(p: Plan, ignoreAt: int, log: seq<Row>, lo: Pos, mid: Pos, hi: Pos, x: Pos)
    requires !Less(mid, lo) && !Less(hi, mid)
    ensures Between(p, ignoreAt, log, lo, hi, x) <==> Between(p, ignoreAt, log, lo, mid, x) || Between(p, ignoreAt, log, mid, hi, x)
  {
    hide Wanted;
  }

  /** A scan of the rule's own class adds exactly what is wanted between where it starts and the new cursor. */
  lemma OwnScan(a: Audit, log: seq<Row>, plans: seq<Plan>, enabled: set<int>, exist: set<int>, now: Moment,
                during: seq<Interrupt>, p: Plan)
    requires Ascending(log) && DistinctRules(plans) && p in plans && p.ruleId in enabled && p.ruleId in exist
    requires StaysOn(during)
    requires p.ruleId in a.marks ==> !Less(StartOf(a, p.large, now), a.marks[p.ruleId])
    ensures var b := AfterScan(a, log, plans, enabled, exist, p.large, now, during);
      var start, next := StartOf(a, p.large, now), CursorOf(b, p.large);
      && !Less(next, start) && p.ruleId in b.marks && b.marks[p.ruleId] == next
      && (!ResetsRule(during, p.ruleId) ==> IgnoreOf(b.ignore, p.ruleId) == IgnoreOf(a.ignore, p.ruleId))
      && forall x :: x in SetOf(b.counted, p.ruleId) <==>
           || (x in SetOf(a.counted, p.ruleId) && !ResetsRule(during, p.ruleId))
           || (IgnoreOf(b.ignore, p.ruleId) == IgnoreOf(a.ignore, p.ruleId) &&
               Between(p, IgnoreOf(a.ignore, p.ruleId), log, start, next, x))
  {
    var b, mine := Pruned(a, enabled, exist, now), OfClass(plans, p.large);
    PruneKeepsRule(a, enabled, exist, now, p.ruleId);
    ClassPlans(plans, p.large);
    var start, s := StartOf(b, p.large, now), Snapshot(CutoffOf(now), b.ignore, b.marks);
    var rows := ReadAfter(log, start);
    var next := NextCursor(start, rows);
    BatchRows(log, start);
    ResetsChange(b, during, p.ruleId);
    var c := Interrupted(b, during);
    CursorSet(c, p.large, next, p.ruleId);
    var d := WithCursor(c, p.large, next);
    assert p in mine;
    assert p.ruleId in d.marks ==> !Less(next, d.marks[p.ruleId]);
    hide Pruned, OfClass, Ascending, ReadAfter, NextCursor, Interrupted, WithCursor, SetOf, IgnoreOf, HitsOf, PosOf, Between;
    HitsAreWanted(s, p, log, start, now);
    CommitOne(d, s, mine, rows, next, p);
  }

  lemma CursorSet(a: Audit, large: bool, c: Pos, rule: int)
    ensures var b := WithCursor(a, large, c);
      && CursorOf(b, large) == c && CursorOf(b, !large) == CursorOf(a, !large)
      && b.marks == a.marks && b.counted == a.counted && b.ignore == a.ignore && b.epoch == a.epoch
  {
  }

  /** A scan of the other class leaves the rule and its cursor alone, but for a reset of the rule meanwhile. */
  lemma OtherScan(a: Audit, log: seq<Row>, plans: seq<Plan>, enabled: set<int>, exist: set<int>, now: Moment,
                  during: seq<Interrupt>, p: Plan)
    requires DistinctRules(plans) && p in plans && p.ruleId in enabled && p.ruleId in exist && StaysOn(during)
    ensures LeavesRule(a, AfterScan(a, log, plans, enabled, exist, !p.large, now, during), p,
                       ResetsWithin(plans, !p.large, during, p.ruleId))
  {
    var b, mine := Pruned(a, enabled, exist, now), OfClass(plans, !p.large);
    PruneKeepsRule(a, enabled, exist, now, p.ruleId);
    ClassPlans(plans, !p.large);
    OthersElsewhere(plans, p);
    CursorSet(b, !p.large, ORIGIN, p.ruleId);
    var start, s := StartOf(b, !p.large, now), Snapshot(CutoffOf(now), b.ignore, b.marks);
    var rows := ReadAfter(log, start);
    var next := NextCursor(start, rows);
    ResetsChange(b, during, p.ruleId);
    var c := Interrupted(b, during);
    CursorSet(c, !p.large, next, p.ruleId);
    var d := WithCursor(c, !p.large, next);
    hide Pruned, OfClass, ReadAfter, NextCursor, Interrupted, WithCursor, SetOf, IgnoreOf;
    CommitElse(d, s, mine, rows, next, p.ruleId);
  }

  /** A scan that could not read the log changes nothing for the rule either. */
  lemma UnreadLeaves(a: Audit, plans: seq<Plan>, enabled: set<int>, exist: set<int>, large: bool, now: Moment,
                     during: seq<Interrupt>, p: Plan)
    requires DistinctRules(plans) && p in plans && p.ruleId in enabled && p.ruleId in exist && StaysOn(during)
    ensures LeavesRule(a, AfterUnreadScan(a, plans, enabled, exist, large, now, during), p,
                       ResetsWithin(plans, large, during, p.ruleId))
  {
    var b := Pruned(a, enabled, exist, now);
    PruneKeepsRule(a, enabled, exist, now, p.ruleId);
    ClassPlans(plans, large);
    CursorSet(b, large, ORIGIN, p.ruleId);
    ResetsChange(b, during, p.ruleId);
    hide Pruned, Interrupted, WithCursor, SetOf, IgnoreOf, ResetsRule, OfClass;
    assert p.large == large ==> p in OfClass(plans, large);
  }

  /** Mark, cursor and account of the rule are as before; a reset of the rule empties the account. */
  predicate LeavesRule(a: Audit, b: Audit, p: Plan, reset: bool) {
    && CursorOf(b, p.large) == CursorOf(a, p.large) && SameMarks(a, b, p.ruleId)
    && SetOf(b.counted, p.ruleId) == (if reset then {} else SetOf(a.counted, p.ruleId))
    && (!reset ==> IgnoreOf(b.ignore, p.ruleId) == IgnoreOf(a.ignore, p.ruleId))
  }

  lemma OthersElsewhere(plans: seq<Plan>, p: Plan)
    requires DistinctRules(plans) && p in plans
    ensures Elsewhere(OfClass(plans, !p.large), p.ruleId)
  {
    ClassPlans(plans, !p.large);
    hide OfClass;
    var i :| 0 <= i < |plans| && plans[i] == p;
    forall q | q in OfClass(plans, !p.large)
      ensures q.ruleId != p.ruleId
    {
      var j :| 0 <= j < |plans| && plans[j] == q;
    }
  }

  lemma ResetLeaves(a: Audit, rule: int, at: int, p: Plan)
    ensures LeavesRule(a, Reset(a, rule, at), p, rule == p.ruleId)
  {
  }

  /** What one event leaves alone keeps its account, which a reset of the rule starts anew at the cursor. */
  lemma LeftExact(a: Audit, b: Audit, p: Plan, log: seq<Row>, newLog: seq<Row>, lo: Pos, reset: bool)
    requires Exact(a, p, log, lo) && LeavesRule(a, b, p, reset) && GrowsBehind(log, newLog, CursorOf(a, p.large))
    ensures Exact(b, p, newLog, if reset then CursorOf(a, p.large) else lo)
  {
    var ignoreAt, cursor := IgnoreOf(a.ignore, p.ruleId), CursorOf(a, p.large);
    hide SetOf, IgnoreOf;
    if !reset {
      forall x
        ensures Between(p, ignoreAt, log, lo, cursor, x) <==> Between(p, ignoreAt, newLog, lo, cursor, x)
      {
        GrownBetween(p, ignoreAt, log, newLog, lo, cursor, x);
      }
      hide Between;
    }
  }

  /**
   A scan of the rule's own class keeps the account exact if and only if no row the rule wants lies after the cursor
   and before the window. A log that was quiet for a day loses nothing; a backlog of more than a day does.
   */
  lemma ExactUnlessSkipped(a: Audit, newLog: seq<Row>, plans: seq<Plan>, enabled: set<int>, exist: set<int>, now: Moment,
                           during: seq<Interrupt>, p: Plan, log: seq<Row>, lo: Pos)
    requires Exact(a, p, log, lo) && !Less(CursorOf(a, p.large), lo)
    requires Ascending(newLog) && DistinctRules(plans) && p in plans && p.ruleId in enabled && p.ruleId in exist
    requires Harmless(during, p.ruleId) && GrowsBehind(log, newLog, CursorOf(a, p.large))
    ensures var b := AfterScan(a, newLog, plans, enabled, exist, p.large, now, during);
      && (Exact(b, p, newLog, lo) <==> NothingSkipped(a, p, newLog, now))
      && !Less(CursorOf(b, p.large), lo)
  {
    var b := AfterScan(a, newLog, plans, enabled, exist, p.large, now, during);
    var ignoreAt, cursor, start := IgnoreOf(a.ignore, p.ruleId), CursorOf(a, p.large), StartOf(a, p.large, now);
    var next := CursorOf(b, p.large);
    OwnScan(a, newLog, plans, enabled, exist, now, during, p);
    hide AfterScan, SetOf, IgnoreOf;
    forall x
      ensures x in SetOf(b.counted, p.ruleId) <==> Between(p, ignoreAt, newLog, lo, cursor, x) || Between(p, ignoreAt, newLog, start, next, x)
      ensures Between(p, ignoreAt, newLog, lo, next, x) <==>
        || Between(p, ignoreAt, newLog, lo, cursor, x) || Between(p, ignoreAt, newLog, cursor, start, x)
        || Between(p, ignoreAt, newLog, start, next, x)
      ensures Between(p, ignoreAt, newLog, cursor, start, x) ==>
        !Between(p, ignoreAt, newLog, lo, cursor, x) && !Between(p, ignoreAt, newLog, start, next, x)
    {
      GrownBetween(p, ignoreAt, log, newLog, lo, cursor, x);
      BetweenJoins(p, ignoreAt, newLog, lo, cursor, start, x);
      BetweenJoins(p, ignoreAt, newLog, lo, start, next, x);
      BetweenApart(p, ignoreAt, newLog, lo, cursor, start, next, x);
      hide Between, GrowsBehind;
    }
    hide Between, StartOf, GrowsBehind;
  }

  lemma BetweenApart(p: Plan, ignoreAt: int, log: seq<Row>, lo: Pos, cursor: Pos, start: Pos, next: Pos, x: Pos)
    ensures Between(p, ignoreAt, log, cursor, start, x) ==>
      !Between(p, ignoreAt, log, lo, cursor, x) && !Between(p, ignoreAt, log, start, next, x)
  {
    hide Wanted;
  }

  /** Where the rule's account starts after an event: anew after a reset of the rule, where it did otherwise. */
  function AccountStart(a: Audit, e: Event, p: Plan, lo: Pos): Pos {
    match e
    case LogOff => lo
    case ResetAnomalies(rule, _) => if rule == p.ruleId then CursorOf(a, p.large) else lo
    case UnreadScan(plans, _, _, large, _, during) =>
      if ResetsWithin(plans, large, during, p.ruleId) then CursorOf(a, p.large) else lo
    case Scan(_, plans, _, _, large, now, during) =>
      if !ResetsWithin(plans, large, during, p.ruleId) then lo
      else if large == p.large && IgnoreOf(After(a, e).ignore, p.ruleId) == IgnoreOf(a.ignore, p.ruleId) then StartOf(a, large, now)
      else CursorOf(After(a, e), p.large)
  }

  lemma ExactStep(a: Audit, e: Event, p: Plan, log: seq<Row>, lo: Pos)
    requires Exact(a, p, log, lo) && KeepsRule(a, e, p, log) && !Less(CursorOf(a, p.large), lo)
    ensures var b, lo' := After(a, e), AccountStart(a, e, p, lo);
      Exact(b, p, LogAfter(log, e), lo') && !Less(CursorOf(b, p.large), lo')
  {
    match e
    case ResetAnomalies(rule, at) =>
      ResetLeaves(a, rule, at, p);
      LeftExact(a, After(a, e), p, log, log, lo, rule == p.ruleId);
      hide Reset, SetOf, IgnoreOf, Between, Exact;
    case UnreadScan(plans, enabled, exist, large, now, during) =>
      UnreadLeaves(a, plans, enabled, exist, large, now, during, p);
      LeftExact(a, After(a, e), p, log, log, lo, ResetsWithin(plans, large, during, p.ruleId));
      hide AfterUnreadScan, SetOf, IgnoreOf, Between, Exact;
    case Scan(newLog, plans, enabled, exist, large, now, during) =>
      if large != p.large {
        OtherScan(a, newLog, plans, enabled, exist, now, during, p);
        LeftExact(a, After(a, e), p, log, newLog, lo, ResetsWithin(plans, large, during, p.ruleId));
        hide AfterScan, SetOf, IgnoreOf, Between, Exact, GrowsBehind, NothingSkipped;
      } else if ResetsRule(during, p.ruleId) {
        ClassPlans(plans, large);
        assert p in OfClass(plans, large);
        OwnScan(a, newLog, plans, enabled, exist, now, during, p);
        hide AfterScan, SetOf, IgnoreOf, GrowsBehind, NothingSkipped;
      } else {
        ExactUnlessSkipped(a, newLog, plans, enabled, exist, now, during, p, log, lo);
        hide AfterScan, SetOf, IgnoreOf, Between, Exact, GrowsBehind, NothingSkipped;
      }
  }

  /**
   A scan that comes too late does lose a row: one that was wanted and came after the first scan's window began, but
   lies before the window of the second scan, is passed over by the cursor and never counted.
   */
  lemma BacklogLost(p: Plan, row: Row, now: Moment, later: Moment)
    requires Wanted(p, 0, row) && Less(FloorOf(now), row.pos) && !Less(FloorOf(later), row.pos)
    ensures var only := {p.ruleId};
      var first, second := Scan([], [p], only, only, p.large, now, []), Scan([row], [p], only, only, p.large, later, []);
      var a := RunOf([first, second]);
      && !Less(CursorOf(a, p.large), row.pos) && row.pos !in SetOf(a.counted, p.ruleId) && !Exact(a, p, [row], FloorOf(now))
  {
    var only, lo := {p.ruleId}, FloorOf(now);
    var first, second := Scan([], [p], only, only, p.large, now, []), Scan([row], [p], only, only, p.large, later, []);
    FirstLeaves(p, now);
    var a := After(Start(), first);
    PassedOver(a, p, row, later, lo);
    hide AfterScan, Exact;
    assert [first, second][..1] == [first] && [first][..0] == [];
    assert RunOf([first]) == a;
  }

  lemma PassedOver(a: Audit, p: Plan, row: Row, later: Moment, lo: Pos)
    requires Exact(a, p, [], lo) && CursorOf(a, p.large) == lo && Wanted(p, IgnoreOf(a.ignore, p.ruleId), row)
    requires Less(lo, row.pos) && !Less(FloorOf(later), row.pos)
    ensures var b := AfterScan(a, [row], [p], {p.ruleId}, {p.ruleId}, p.large, later, []);
      && !Less(CursorOf(b, p.large), row.pos) && row.pos !in SetOf(b.counted, p.ruleId) && !Exact(b, p, [row], lo)
  {
    ExactUnlessSkipped(a, [row], [p], {p.ruleId}, {p.ruleId}, later, [], p, [], lo);
    OwnScan(a, [row], [p], {p.ruleId}, {p.ruleId}, later, [], p);
    hide AfterScan, SetOf, IgnoreOf, Wanted;
    assert row in [row];
    assert Between(p, IgnoreOf(a.ignore, p.ruleId), [row], lo, StartOf(a, p.large, later), row.pos);
  }

  lemma FirstLeaves(p: Plan, now: Moment)
    ensures var a := After(Start(), Scan([], [p], {p.ruleId}, {p.ruleId}, p.large, now, []));
      Exact(a, p, [], FloorOf(now)) && CursorOf(a, p.large) == FloorOf(now) && IgnoreOf(a.ignore, p.ruleId) == 0
  {
    StartInv();
    FirstScan(Start(), [], [p], {p.ruleId}, {p.ruleId}, now, [], p);
    OwnScan(Start(), [], [p], {p.ruleId}, {p.ruleId}, now, [], p);
    NothingRead(Start(), [p], {p.ruleId}, {p.ruleId}, p.large, now);
    hide AfterScan, Inv, Exact;
  }

  /** A scan that finds nothing in the log leaves the cursor where it started. */
  lemma NothingRead(a: Audit, plans: seq<Plan>, enabled: set<int>, exist: set<int>, large: bool, now: Moment)
    requires DistinctRules(plans) && OfClass(plans, large) != []
    ensures CursorOf(AfterScan(a, [], plans, enabled, exist, large, now, []), large) == StartOf(a, large, now)
  {
    var b, mine := Pruned(a, enabled, exist, now), OfClass(plans, large);
    var start, s := StartOf(b, large, now), Snapshot(CutoffOf(now), b.ignore, b.marks);
    ClassPlans(plans, large);
    assert ReadAfter([], start) == [] && NextCursor(start, []) == start && Interrupted(b, []) == b;
    var d := WithCursor(b, large, start);
    CursorSet(b, large, start, 0);
    hide CommitAll, WithCursor, OfClass;
    CommitKeepsCursor(d, s, mine, [], start);
  }

  lemma {:induction false} CommitKeepsCursor(a: Audit, s: Snapshot, plans: seq<Plan>, rows: seq<Row>, next: Pos)
    ensures var b := CommitAll(a, s, plans, rows, next); b.small == a.small && b.large == a.large
  {
    if plans != [] {
      CommitKeepsCursor(a, s, plans[..|plans| - 1], rows, next);
      CommitFrame(CommitAll(a, s, plans[..|plans| - 1], rows, next), s, plans[|plans| - 1], rows, next);
      hide CommitRule;
    }
  }

  /** The first scan of a rule that carries no watermark yet starts the account where its class stands. */
  lemma FirstScan(a: Audit, log: seq<Row>, plans: seq<Plan>, enabled: set<int>, exist: set<int>, now: Moment,
                  during: seq<Interrupt>, p: Plan)
    requires Inv(a) && p.ruleId !in a.marks
    requires Ascending(log) && DistinctRules(plans) && p in plans && p.ruleId in enabled && p.ruleId in exist
    requires Harmless(during, p.ruleId)
    ensures var b := AfterScan(a, log, plans, enabled, exist, p.large, now, during);
      Exact(b, p, log, StartOf(a, p.large, now)) && !Less(CursorOf(b, p.large), StartOf(a, p.large, now))
  {
    assert BelowMark(a, p.ruleId);
    assert SetOf(a.counted, p.ruleId) == {};
    OwnScan(a, log, plans, enabled, exist, now, during, p);
    hide AfterScan, StartOf, Between;
  }

  function RunFrom(a: Audit, events: seq<Event>): Audit
    decreases |events|
  {
    if events == [] then a else RunFrom(After(a, events[0]), events[1..])
  }

  function LogOf(log: seq<Row>, events: seq<Event>): seq<Row>
    decreases |events|
  {
    if events == [] then log else LogOf(LogAfter(log, events[0]), events[1..])
  }

  ghost predicate KeptRun(a: Audit, events: seq<Event>, p: Plan, log: seq<Row>)
    decreases |events|
  {
    events == [] ||
    (KeepsRule(a, events[0], p, log) && KeptRun(After(a, events[0]), events[1..], p, LogAfter(log, events[0])))
  }

  /** Where the account starts after a run. */
  function StartAfter(a: Audit, events: seq<Event>, p: Plan, lo: Pos): Pos
    decreases |events|
  {
    if events == [] then lo else StartAfter(After(a, events[0]), events[1..], p, AccountStart(a, events[0], p, lo))
  }

  /**
   Exactly once: as long as a rule keeps its class and no scan finds a backlog beyond the window, then after any number
   of scans of both classes, failed ones included, and of resets of any rule at any moment, the counted rows are exactly
   the rows the rule wants under its latest ignore time, from where its account was last started up to the cursor.
   */
  lemma {:induction false} CountedExactlyOnce(a: Audit, events: seq<Event>, p: Plan, log: seq<Row>, lo: Pos)
    requires Exact(a, p, log, lo) && !Less(CursorOf(a, p.large), lo) && KeptRun(a, events, p, log)
    ensures Exact(RunFrom(a, events), p, LogOf(log, events), StartAfter(a, events, p, lo))
    decreases |events|
  {
    hide Exact, KeepsRule, After, CursorOf, Less, AccountStart;
    if events != [] {
      ExactStep(a, events[0], p, log, lo);
      CountedExactlyOnce(After(a, events[0]), events[1..], p, LogAfter(log, events[0]), AccountStart(a, events[0], p, lo));
    }
  }
}
