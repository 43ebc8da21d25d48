/**
 The account of a rule whose plan changes from scan to scan, on a log that loses old rows: each row is read by one scan
 at most, and counted exactly if the plan of that scan wants it.
 */
module AnomalyReadings {
  import Collections
  import opened Anomaly
  import opened AnomalyOnce

  /** One scan of the rule's class: from where to where it read, when, under which plan, and what the log held then. */
  datatype Reading = Reading(start: Pos, next: Pos, now: Moment, plan: Plan, log: seq<Row>)

  predicate Covers(rd: Reading, x: Pos) {
    Less(rd.start, x) && !Less(rd.next, x)
  }

  /** A scan starts at the cursor, or where its window begins if that is later. */
  function Jump(cursor: Pos, now: Moment): Pos {
    if Less(cursor, FloorOf(now)) then FloorOf(now) else cursor
  }

  function EndOf(lo: Pos, readings: seq<Reading>): Pos {
    if readings == [] then lo else readings[|readings| - 1].next
  }

  /** Each reading goes on where the one before it ended, but for what lies before its window. */
  ghost predicate Chained(lo: Pos, readings: seq<Reading>) {
    forall i :: 0 <= i < |readings| ==> Linked(EndOf(lo, readings[..i]), readings[i])
  }

  ghost predicate Linked(cursor: Pos, rd: Reading) {
    rd.start == Jump(cursor, rd.now) && !Less(rd.next, rd.start) && Ascending(rd.log)
  }

  ghost predicate WantedIn(readings: seq<Reading>, ignoreAt: int, x: Pos) {
    exists i :: 0 <= i < |readings| &&
      Between(readings[i].plan, ignoreAt, readings[i].log, readings[i].start, readings[i].next, x)
  }

  /** What is counted is what the readings wanted, each by its own plan, under the present ignore time. */
  ghost predicate Account(a: Audit, rule: int, large: bool, lo: Pos, readings: seq<Reading>) {
    && rule in a.marks && a.marks[rule] == CursorOf(a, large) == EndOf(lo, readings) && Chained(lo, readings)
    && (forall x :: x in SetOf(a.counted, rule) <==> WantedIn(readings, IgnoreOf(a.ignore, rule), x))
  }

  // ----- what the account says of a row

  lemma {:induction false} LaterStarts(lo: Pos, readings: seq<Reading>, i: nat, j: nat)
    requires Chained(lo, readings) && i < j < |readings|
    ensures !Less(readings[j].start, readings[i].next)
  {
    assert Linked(EndOf(lo, readings[..j]), readings[j]);
    assert readings[..j][j - 1] == readings[j - 1];
    if i < j - 1 {
      LaterStarts(lo, readings, i, j - 1);
      assert Linked(EndOf(lo, readings[..j - 1]), readings[j - 1]);
    }
  }

  /** No two readings cover the same place. */
  lemma ReadOnce(lo: Pos, readings: seq<Reading>, i: nat, j: nat, x: Pos)
    requires Chained(lo, readings) && i < |readings| && j < |readings| && Covers(readings[i], x) && Covers(readings[j], x)
    ensures i == j
  {
    if i < j {
      LaterStarts(lo, readings, i, j);
    } else if j < i {
      LaterStarts(lo, readings, j, i);
    }
  }

  /** A place passed over: after the end of one reading and before the window of the next. */
  predicate PassedOver(lo: Pos, readings: seq<Reading>, i: nat, x: Pos)
    requires i < |readings|
  {
    Less(EndOf(lo, readings[..i]), x) && !Less(readings[i].start, x)
  }

  /** A place between the start of the account and the cursor is read, or else it was passed over. */
  lemma {:induction false} ReadOrPassed(lo: Pos, readings: seq<Reading>, x: Pos)
    requires Chained(lo, readings) && Less(lo, x) && !Less(EndOf(lo, readings), x)
    ensures exists i :: 0 <= i < |readings| && (Covers(readings[i], x) || PassedOver(lo, readings, i, x))
    decreases |readings|
  {
    var n := |readings| - 1;
    var front := readings[..n];
    if !Less(EndOf(lo, front), x) {
      ChainedFront(lo, readings, n);
      ReadOrPassed(lo, front, x);
      var i :| 0 <= i < |front| && (Covers(front[i], x) || PassedOver(lo, front, i, x));
      assert front[..i] == readings[..i];
      assert Covers(readings[i], x) || PassedOver(lo, readings, i, x);
    } else {
      assert Covers(readings[n], x) || PassedOver(lo, readings, n, x);
    }
  }

  lemma ChainedFront(lo: Pos, readings: seq<Reading>, n: nat)
    requires Chained(lo, readings) && n <= |readings|
    ensures Chained(lo, readings[..n])
  {
    hide Linked, EndOf;
    forall i | 0 <= i < n
      ensures Linked(EndOf(lo, readings[..n][..i]), readings[..n][i])
    {
      assert readings[..n][..i] == readings[..i];
    }
  }

  /** A row is counted if and only if the plan of the scan that read it wants it; a row no scan read is not. */
  lemma CountedIffWanted(a: Audit, rule: int, large: bool, lo: Pos, readings: seq<Reading>, i: nat, r: Row)
    requires Account(a, rule, large, lo, readings)
    requires i < |readings| && r in readings[i].log && Covers(readings[i], r.pos)
    ensures r.pos in SetOf(a.counted, rule) <==> Wanted(readings[i].plan, IgnoreOf(a.ignore, rule), r)
  {
    var ignoreAt := IgnoreOf(a.ignore, rule);
    assert Linked(EndOf(lo, readings[..i]), readings[i]);
    hide SetOf, IgnoreOf, Wanted, Chained, Linked;
    forall j | 0 <= j < |readings|
      ensures Between(readings[j].plan, ignoreAt, readings[j].log, readings[j].start, readings[j].next, r.pos) ==>
        i == j && Wanted(readings[i].plan, ignoreAt, r)
    {
      if Between(readings[j].plan, ignoreAt, readings[j].log, readings[j].start, readings[j].next, r.pos) {
        ReadOnce(lo, readings, i, j, r.pos);
        OneRowThere(readings[i].log, r);
      }
    }
  }

  lemma OneRowThere(log: seq<Row>, r: Row)
    requires r in log && Ascending(log)
    ensures forall q <- log :: q.pos == r.pos ==> q == r
  {
    var i :| 0 <= i < |log| && log[i] == r;
    forall q | q in log && q.pos == r.pos
      ensures q == r
    {
      var j :| 0 <= j < |log| && log[j] == q;
    }
  }

  // ----- the account through a run

  /** The rule stays planned for its class; everything else about its plan may change. */
  ghost predicate KeepsClass(e: Event, rule: int, large: bool) {
    match e
    case LogOff => false
    case ResetAnomalies(_, _) => true
    case UnreadScan(plans, enabled, exist, _, _, during) => Planned(plans, enabled, exist, during, rule, large)
    case Scan(_, plans, enabled, exist, _, _, during) => Legal(e) && Planned(plans, enabled, exist, during, rule, large)
  }

  ghost predicate Planned(plans: seq<Plan>, enabled: set<int>, exist: set<int>, during: seq<Interrupt>, rule: int, large: bool) {
    && DistinctRules(plans) && rule in enabled && rule in exist && StaysOn(during)
    && exists p <- plans :: p.ruleId == rule && p.large == large
  }

  ghost function PlanFor(plans: seq<Plan>, rule: int, large: bool): (p: Plan)
    requires exists p <- plans :: p.ruleId == rule && p.large == large
    ensures p in plans && p.ruleId == rule && p.large == large
  {
    var p :| p in plans && p.ruleId == rule && p.large == large; p
  }

  /** The account after an event: a scan of the class adds its reading, a reset of the rule starts anew. */
  ghost function AccountAfter(a: Audit, e: Event, rule: int, large: bool, lo: Pos, readings: seq<Reading>): (Pos, seq<Reading>)
    requires KeepsClass(e, rule, large)
  {
    match e
    case LogOff => (lo, readings)
    case ResetAnomalies(r, _) => if r == rule then (CursorOf(a, large), []) else (lo, readings)
    case UnreadScan(plans, _, _, isLarge, _, during) =>
      if ResetsWithin(plans, isLarge, during, rule) then (CursorOf(a, large), []) else (lo, readings)
    case Scan(log, plans, _, _, isLarge, now, during) =>
      if isLarge != large then
        if ResetsWithin(plans, isLarge, during, rule) then (CursorOf(a, large), []) else (lo, readings)
      else
        var b := After(a, e);
        var rd := Reading(StartOf(a, large, now), CursorOf(b, large), now, PlanFor(plans, rule, large), log);
        if !ResetsRule(during, rule) then (lo, readings + [rd])
        else if IgnoreOf(b.ignore, rule) == IgnoreOf(a.ignore, rule) then (CursorOf(a, large), [rd])
        else (CursorOf(b, large), [])
  }

  lemma LeftAccount(a: Audit, b: Audit, p: Plan, lo: Pos, readings: seq<Reading>, reset: bool)
    requires Account(a, p.ruleId, p.large, lo, readings) && LeavesRule(a, b, p, reset)
    ensures if reset then Account(b, p.ruleId, p.large, CursorOf(a, p.large), []) else Account(b, p.ruleId, p.large, lo, readings)
  {
    hide SetOf, IgnoreOf, Linked;
  }

  lemma ChainedMore(lo: Pos, readings: seq<Reading>, rd: Reading)
    requires Chained(lo, readings) && Linked(EndOf(lo, readings), rd)
    ensures Chained(lo, readings + [rd])
  {
    var more := readings + [rd];
    hide Linked, EndOf;
    forall i | 0 <= i < |more|
      ensures Linked(EndOf(lo, more[..i]), more[i])
    {
      assert more[..i] == readings[..i];
      assert readings[..|readings|] == readings;
    }
  }

  lemma WantedMore(readings: seq<Reading>, rd: Reading, ignoreAt: int, x: Pos)
    ensures WantedIn(readings + [rd], ignoreAt, x) <==>
      WantedIn(readings, ignoreAt, x) || Between(rd.plan, ignoreAt, rd.log, rd.start, rd.next, x)
  {
    hide Between;
    var more := readings + [rd];
    if i :| 0 <= i < |readings| && Between(readings[i].plan, ignoreAt, readings[i].log, readings[i].start, readings[i].next, x) {
      assert more[i] == readings[i];
    }
    assert more[|readings|] == rd;
  }

  lemma AddReading(b: Audit, rule: int, large: bool, lo: Pos, readings: seq<Reading>, rd: Reading, before: set<Pos>)
    requires rule in b.marks && b.marks[rule] == CursorOf(b, large) == rd.next
    requires Chained(lo, readings) && Linked(EndOf(lo, readings), rd)
    requires forall x :: x in before <==> WantedIn(readings, IgnoreOf(b.ignore, rule), x)
    requires forall x :: x in SetOf(b.counted, rule) <==>
      (x in before || Between(rd.plan, IgnoreOf(b.ignore, rule), rd.log, rd.start, rd.next, x))
    ensures Account(b, rule, large, lo, readings + [rd])
  {
    ChainedMore(lo, readings, rd);
    hide SetOf, Chained, Linked, Between, CursorOf, IgnoreOf;
    forall x
      ensures x in SetOf(b.counted, rule) <==> WantedIn(readings + [rd], IgnoreOf(b.ignore, rule), x)
    {
      WantedMore(readings, rd, IgnoreOf(b.ignore, rule), x);
    }
    hide WantedIn;
  }

  /** A scan of the class adds its own reading to what is counted. */
  lemma OwnAccount(a: Audit, e: Event, rule: int, large: bool, lo: Pos, readings: seq<Reading>)
    requires e.Scan? && e.large == large && KeepsClass(e, rule, large)
    requires rule in a.marks ==> !Less(StartOf(a, large, e.now), a.marks[rule])
    requires EndOf(lo, readings) == CursorOf(a, large) && Chained(lo, readings)
    requires forall x :: x in SetOf(a.counted, rule) <==> WantedIn(readings, IgnoreOf(a.ignore, rule), x)
    ensures var r := AccountAfter(a, e, rule, large, lo, readings); Account(After(a, e), rule, large, r.0, r.1)
  {
    var p, b := PlanFor(e.plans, rule, large), After(a, e);
    OwnScan(a, e.log, e.plans, e.enabled, e.exist, e.now, e.during, p);
    var rd := Reading(StartOf(a, large, e.now), CursorOf(b, large), e.now, p, e.log);
    assert Linked(CursorOf(a, large), rd);
    hide After, SetOf, IgnoreOf, Linked, Between, StartOf, CursorOf, ResetsRule, KeepsClass, WantedIn;
    if !ResetsRule(e.during, rule) {
      AddReading(b, rule, large, lo, readings, rd, SetOf(a.counted, rule));
    } else if IgnoreOf(b.ignore, rule) == IgnoreOf(a.ignore, rule) {
      NothingWanted(IgnoreOf(a.ignore, rule));
      AddReading(b, rule, large, CursorOf(a, large), [], rd, {});
      assert [] + [rd] == [rd];
    } else {
      NothingWanted(IgnoreOf(b.ignore, rule));
      assert forall x :: x !in SetOf(b.counted, rule);
    }
  }

  lemma NothingWanted(ignoreAt: int)
    ensures forall x :: !WantedIn([], ignoreAt, x)
  {
  }

  lemma AccountStep(a: Audit, e: Event, rule: int, large: bool, lo: Pos, readings: seq<Reading>)
    requires Account(a, rule, large, lo, readings) && KeepsClass(e, rule, large)
    ensures var r := AccountAfter(a, e, rule, large, lo, readings); Account(After(a, e), rule, large, r.0, r.1)
  {
    match e
    case ResetAnomalies(r, at) =>
      var p := Plan(rule, large, "", {}, _ => false, Collections.None);
      ResetLeaves(a, r, at, p);
      LeftAccount(a, After(a, e), p, lo, readings, r == rule);
    case UnreadScan(plans, enabled, exist, isLarge, now, during) =>
      var p := PlanFor(plans, rule, large);
      UnreadLeaves(a, plans, enabled, exist, isLarge, now, during, p);
      LeftAccount(a, After(a, e), p, lo, readings, ResetsWithin(plans, isLarge, during, rule));
    case Scan(log, plans, enabled, exist, isLarge, now, during) =>
      if isLarge == large {
        OwnAccount(a, e, rule, large, lo, readings);
      } else {
        var p := PlanFor(plans, rule, large);
        OtherScan(a, log, plans, enabled, exist, now, during, p);
        LeftAccount(a, After(a, e), p, lo, readings, ResetsWithin(plans, isLarge, during, rule));
      }
  }

  /** The first scan of a rule that carries no watermark yet opens its account at the cursor of its class. */
  lemma AccountOpens(a: Audit, e: Event, rule: int, large: bool)
    requires Inv(a) && rule !in a.marks
    requires e.Scan? && e.large == large && KeepsClass(e, rule, large) && !ResetsRule(e.during, rule)
    ensures var rd := Reading(StartOf(a, large, e.now), CursorOf(After(a, e), large), e.now, PlanFor(e.plans, rule, large), e.log);
      Account(After(a, e), rule, large, CursorOf(a, large), [rd])
  {
    assert BelowMark(a, rule);
    assert SetOf(a.counted, rule) == {};
    OwnAccount(a, e, rule, large, CursorOf(a, large), []);
    var rd := Reading(StartOf(a, large, e.now), CursorOf(After(a, e), large), e.now, PlanFor(e.plans, rule, large), e.log);
    assert [] + [rd] == [rd];
  }

  ghost predicate ClassKept(events: seq<Event>, rule: int, large: bool) {
    forall e <- events :: KeepsClass(e, rule, large)
  }

  ghost function AccountOf(a: Audit, events: seq<Event>, rule: int, large: bool, lo: Pos, readings: seq<Reading>): (Pos, seq<Reading>)
    requires ClassKept(events, rule, large)
    decreases |events|
  {
    if events == [] then (lo, readings)
    else
      var r := AccountAfter(a, events[0], rule, large, lo, readings);
      AccountOf(After(a, events[0]), events[1..], rule, large, r.0, r.1)
  }

  /**
   Exactly once, by the plan in force: as long as a rule keeps its class, whatever else about its plan changes from scan
   to scan, whatever old rows the log loses, and whichever rules are reset, what is counted is what each scan's own plan
   wanted of the rows it read since the account was last started.
   */
  lemma {:induction false} CountedByReading(a: Audit, events: seq<Event>, rule: int, large: bool, lo: Pos, readings: seq<Reading>)
    requires Account(a, rule, large, lo, readings) && ClassKept(events, rule, large)
    ensures var r := AccountOf(a, events, rule, large, lo, readings); Account(RunFrom(a, events), rule, large, r.0, r.1)
    decreases |events|
  {
    hide Account, KeepsClass, After, AccountAfter;
    if events != [] {
      AccountStep(a, events[0], rule, large, lo, readings);
      var r := AccountAfter(a, events[0], rule, large, lo, readings);
      CountedByReading(After(a, events[0]), events[1..], rule, large, r.0, r.1);
    }
  }

  // ----- retention

  lemma {:induction false} LaterWithout(log: seq<Row>, n: nat, start: Pos)
    requires n <= |log| && forall i :: 0 <= i < n ==> !Less(start, log[i].pos)
    ensures Later(log[n..], start) == Later(log, start)
    decreases |log|
  {
    if n < |log| {
      LaterWithout(log[..|log| - 1], n, start);
      assert log[n..][..|log[n..]| - 1] == log[..|log| - 1][n..];
    } else if n > 0 {
      LaterWithout(log[..n - 1], n - 1, start);
      assert log[..n - 1][n - 1..] == [] == log[n..];
    }
  }

  /** Rows deleted at or before where a scan starts, as all rows past their retention are, make no difference to it. */
  lemma RetentionHarmless(a: Audit, log: seq<Row>, n: nat, plans: seq<Plan>, enabled: set<int>, exist: set<int>, large: bool,
                          now: Moment, during: seq<Interrupt>)
    requires n <= |log| && forall i :: 0 <= i < n ==> !Less(StartOf(a, large, now), log[i].pos)
    ensures AfterScan(a, log[n..], plans, enabled, exist, large, now, during) == AfterScan(a, log, plans, enabled, exist, large, now, during)
  {
    LaterWithout(log, n, StartOf(a, large, now));
    hide Later, CommitAll, Interrupted, OfClass, NextCursor, WithCursor;
    assert StartOf(Pruned(a, enabled, exist, now), large, now) == StartOf(a, large, now);
    assert ReadAfter(log[n..], StartOf(a, large, now)) == ReadAfter(log, StartOf(a, large, now));
  }
}
