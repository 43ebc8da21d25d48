/** The scan as it runs: rows and rules in loops, large rules group by group, deltas merged at the end. */
module AnomalyScan {
  import opened Collections
  import opened Anomaly
  import opened AnomalyOnce

  type Matcher = Option<string -> bool>

  ghost predicate Agree(m: Matcher, n: Matcher) {
    m.Some? == n.Some? && (m.Some? ==> forall target :: m.value(target) == n.value(target))
  }

  /** Large rules of one group key have the same groups, so that one matcher does for all of them. */
  ghost predicate MatcherByKey(plans: seq<Plan>) {
    forall i, j :: 0 <= i < |plans| && 0 <= j < |plans| && plans[i].groupKey == plans[j].groupKey ==>
      Agree(plans[i].matcher, plans[j].matcher)
  }

  type Deltas = map<int, Counts>

  /** A rule has a delta exactly when it had a hit, and then it is the tally of its hits. */
  ghost predicate DeltaFor(d: Deltas, s: Snapshot, p: Plan, rows: seq<Row>) {
    var hits := HitsOf(s, p, rows);
    && (p.ruleId in d <==> hits != [])
    && (p.ruleId in d ==> d[p.ruleId] == Tally(hits))
  }

  ghost predicate DeltasFor(d: Deltas, s: Snapshot, plans: seq<Plan>, rows: seq<Row>) {
    forall i :: 0 <= i < |plans| ==> DeltaFor(d, s, plans[i], rows)
  }

  /** One row for one rule. */
  method AccumulateOne(s: Snapshot, p: Plan, m: Matcher, r: Row, d: Deltas) returns (deltas: Deltas)
    requires Agree(m, p.matcher)
    ensures deltas == if Hit(s, p, r)
      then d[p.ruleId := Bump(if p.ruleId in d then d[p.ruleId] else map[], HourOf(r.pos.time), 1)] else d
  {
    if m.None? || !Candidate(s, p, r) || !m.value(r.target) {
      return d;
    }
    var byHour := if p.ruleId in d then d[p.ruleId] else map[];
    deltas := d[p.ruleId := Bump(byHour, HourOf(r.pos.time), 1)];
  }

  lemma OneRowMore(s: Snapshot, p: Plan, rows: seq<Row>, i: nat, d: Deltas)
    requires i < |rows| && DeltaFor(d, s, p, rows[..i])
    ensures DeltaFor(if Hit(s, p, rows[i])
      then d[p.ruleId := Bump(if p.ruleId in d then d[p.ruleId] else map[], HourOf(rows[i].pos.time), 1)] else d, s, p, rows[..i + 1])
  {
    assert rows[..i + 1][..i] == rows[..i];
    var hits := HitsOf(s, p, rows[..i]);
    assert HitsOf(s, p, rows[..i + 1]) == if Hit(s, p, rows[i]) then hits + [rows[i]] else hits;
    hide HitsOf, Hit;
    if Hit(s, p, rows[i]) {
      var sofar := if p.ruleId in d then d[p.ruleId] else map[];
      assert sofar == Tally(hits);
      TallySnoc(hits, rows[i]);
    } else {
      assert rows[..i + 1] == rows[..i] + [rows[i]];
    }
  }

  lemma TallySnoc(hits: seq<Row>, r: Row)
    ensures Tally(hits + [r]) == Bump(Tally(hits), HourOf(r.pos.time), 1)
  {
    assert (hits + [r])[..|hits + [r]| - 1] == hits;
  }

  lemma OtherRule(d: Deltas, rule: int, c: Counts, s: Snapshot, q: Plan, rows: seq<Row>)
    requires q.ruleId != rule && DeltaFor(d, s, q, rows)
    ensures DeltaFor(d[rule := c], s, q, rows)
  {
    hide HitsOf, Tally;
  }

  /** Every row for every rule, each with the matcher it is given. */
  method Accumulate(s: Snapshot, plans: seq<Plan>, matcherOf: Plan -> Matcher, rows: seq<Row>, start: Deltas)
    returns (deltas: Deltas)
    requires DistinctRules(plans) && forall i :: 0 <= i < |plans| ==> plans[i].ruleId !in start
    requires forall i :: 0 <= i < |plans| ==> Agree(matcherOf(plans[i]), plans[i].matcher)
    ensures DeltasFor(deltas, s, plans, rows)
    ensures forall r :: Absent(plans, r) ==> (r in deltas <==> r in start) && (r in start ==> deltas[r] == start[r])
  {
    deltas := start;
    for i := 0 to |rows|
      invariant DeltasFor(deltas, s, plans, rows[..i])
      invariant forall r :: Absent(plans, r) ==> (r in deltas <==> r in start) && (r in start ==> deltas[r] == start[r])
    {
      hide DeltaFor, Hit, Bump, Agree;
      for j := 0 to |plans|
        invariant forall k :: 0 <= k < j ==> DeltaFor(deltas, s, plans[k], rows[..i + 1])
        invariant forall k :: j <= k < |plans| ==> DeltaFor(deltas, s, plans[k], rows[..i])
        invariant forall r :: Absent(plans, r) ==> (r in deltas <==> r in start) && (r in start ==> deltas[r] == start[r])
      {
        ghost var before := deltas;
        OneRowMore(s, plans[j], rows, i, deltas);
        assert !Absent(plans, plans[j].ruleId);
        deltas := AccumulateOne(s, plans[j], matcherOf(plans[j]), rows[i], deltas);
        if Hit(s, plans[j], rows[i]) {
          forall k | 0 <= k < |plans| && k != j
            ensures DeltaFor(deltas, s, plans[k], if k < j then rows[..i + 1] else rows[..i])
          {
            OtherRule(before, plans[j].ruleId, deltas[plans[j].ruleId], s, plans[k], if k < j then rows[..i + 1] else rows[..i]);
          }
        }
      }
    }
    assert rows[..|rows|] == rows;
  }

  predicate Absent(plans: seq<Plan>, rule: int) {
    forall i :: 0 <= i < |plans| ==> plans[i].ruleId != rule
  }

  // ----- large rules, group by group

  function GroupOf(plans: seq<Plan>, key: string): seq<Plan> {
    if plans == [] then []
    else GroupOf(plans[..|plans| - 1], key) + if plans[|plans| - 1].groupKey == key then [plans[|plans| - 1]] else []
  }

  method AnyCandidate(s: Snapshot, plans: seq<Plan>, rows: seq<Row>) returns (any: bool)
    ensures any <==> exists i, j :: 0 <= i < |rows| && 0 <= j < |plans| && Candidate(s, plans[j], rows[i])
  {
    hide Candidate;
    for i := 0 to |rows|
      invariant forall n, j :: 0 <= n < i && 0 <= j < |plans| ==> !Candidate(s, plans[j], rows[n])
    {
      for j := 0 to |plans|
        invariant forall k :: 0 <= k < j ==> !Candidate(s, plans[k], rows[i])
      {
        if Candidate(s, plans[j], rows[i]) {
          return true;
        }
      }
    }
    return false;
  }

  /** Without a candidate, or without a matcher, there is no hit. */
  lemma {:induction false} NoHits(s: Snapshot, p: Plan, rows: seq<Row>)
    requires p.matcher.None? || forall i :: 0 <= i < |rows| ==> !Candidate(s, p, rows[i])
    ensures HitsOf(s, p, rows) == []
  {
    hide Candidate;
    if rows != [] {
      NoHits(s, p, rows[..|rows| - 1]);
    }
  }

  /** One group: the matcher of its first rule serves them all, and is only built when some row could count. */
  method ScanLargeKey(s: Snapshot, group: seq<Plan>, rows: seq<Row>, start: Deltas) returns (deltas: Deltas)
    requires group != [] && DistinctRules(group) && forall i :: 0 <= i < |group| ==> group[i].ruleId !in start
    requires forall i :: 0 <= i < |group| ==> Agree(group[0].matcher, group[i].matcher)
    ensures DeltasFor(deltas, s, group, rows)
    ensures forall r :: Absent(group, r) ==> (r in deltas <==> r in start) && (r in start ==> deltas[r] == start[r])
  {
    hide Candidate;
    var any := AnyCandidate(s, group, rows);
    var m := group[0].matcher;
    if !any || m.None? {
      forall i | 0 <= i < |group|
        ensures DeltaFor(start, s, group[i], rows)
      {
        NoHits(s, group[i], rows);
      }
      return start;
    }
    deltas := Accumulate(s, group, _ => m, rows, start);
  }

  method KeysOf(plans: seq<Plan>) returns (keys: seq<string>)
    ensures forall i, j :: 0 <= i < j < |keys| ==> keys[i] != keys[j]
    ensures forall k :: k in keys <==> exists i :: 0 <= i < |plans| && plans[i].groupKey == k
  {
    keys := [];
    for i := 0 to |plans|
      invariant forall a, b :: 0 <= a < b < |keys| ==> keys[a] != keys[b]
      invariant forall k :: k in keys <==> exists n :: 0 <= n < i && plans[n].groupKey == k
    {
      if plans[i].groupKey !in keys {
        keys := keys + [plans[i].groupKey];
      }
    }
  }

  lemma {:induction false} GroupMembers(plans: seq<Plan>, key: string)
    requires DistinctRules(plans)
    ensures DistinctRules(GroupOf(plans, key))
    ensures forall p :: p in GroupOf(plans, key) <==> p in plans && p.groupKey == key
  {
    if plans != [] {
      LastRule(plans);
      var front := plans[..|plans| - 1];
      GroupMembers(front, key);
      var g := GroupOf(front, key);
      assert forall i :: 0 <= i < |g| ==> g[i] in g;
    }
  }

  /** Scanning large rules group by group gives the same deltas as scanning them all at once. */
  method ScanLarge(s: Snapshot, plans: seq<Plan>, rows: seq<Row>) returns (deltas: Deltas)
    requires DistinctRules(plans) && MatcherByKey(plans)
    ensures DeltasFor(deltas, s, plans, rows)
  {
    deltas := map[];
    var keys := KeysOf(plans);
    for n := 0 to |keys|
      invariant forall i :: 0 <= i < |plans| && plans[i].groupKey in keys[..n] ==> DeltaFor(deltas, s, plans[i], rows)
      invariant forall i :: 0 <= i < |plans| && plans[i].groupKey !in keys[..n] ==> plans[i].ruleId !in deltas
    {
      hide DeltaFor;
      var key := keys[n];
      assert key in keys;
      var group := Group(plans, key);
      GroupMembers(plans, key);
      GroupReady(plans, key, n, keys, deltas);
      ghost var before := deltas;
      deltas := ScanLargeKey(s, group, rows, deltas);
      assert keys[..n + 1] == keys[..n] + [key];
      forall i | 0 <= i < |plans|
        ensures plans[i].groupKey in keys[..n + 1] ==> DeltaFor(deltas, s, plans[i], rows)
        ensures plans[i].groupKey !in keys[..n + 1] ==> plans[i].ruleId !in deltas
      {
        GroupDone(s, plans, key, rows, before, deltas, i);
      }
    }
    assert keys[..|keys|] == keys;
    assert forall i :: 0 <= i < |plans| ==> plans[i].groupKey in keys;
  }

  method Group(plans: seq<Plan>, key: string) returns (group: seq<Plan>)
    ensures group == GroupOf(plans, key)
  {
    group := [];
    for i := 0 to |plans|
      invariant group == GroupOf(plans[..i], key)
    {
      assert plans[..i + 1][..i] == plans[..i];
      if plans[i].groupKey == key {
        group := group + [plans[i]];
      }
    }
    assert plans[..|plans|] == plans;
  }

  lemma GroupReady(plans: seq<Plan>, key: string, n: nat, keys: seq<string>, deltas: Deltas)
    requires DistinctRules(plans) && MatcherByKey(plans) && n < |keys| && keys[n] == key
    requires forall i, j :: 0 <= i < j < |keys| ==> keys[i] != keys[j]
    requires exists i :: 0 <= i < |plans| && plans[i].groupKey == key
    requires forall i :: 0 <= i < |plans| && plans[i].groupKey !in keys[..n] ==> plans[i].ruleId !in deltas
    ensures var g := GroupOf(plans, key);
      && g != [] && (forall i :: 0 <= i < |g| ==> g[i].ruleId !in deltas)
      && (forall i :: 0 <= i < |g| ==> Agree(g[0].matcher, g[i].matcher))
  {
    GroupMembers(plans, key);
    var g := GroupOf(plans, key);
    hide GroupOf, Agree;
    var m :| 0 <= m < |plans| && plans[m].groupKey == key;
    assert plans[m] in g;
    assert key !in keys[..n];
    forall i | 0 <= i < |g|
      ensures exists j :: 0 <= j < |plans| && plans[j] == g[i] && plans[j].groupKey == key
    {
      assert g[i] in g;
      var j :| 0 <= j < |plans| && plans[j] == g[i];
    }
  }

  lemma GroupDone(s: Snapshot, plans: seq<Plan>, key: string, rows: seq<Row>, before: Deltas, after: Deltas, i: nat)
    requires DistinctRules(plans) && i < |plans| && DeltasFor(after, s, GroupOf(plans, key), rows)
    requires forall r :: Absent(GroupOf(plans, key), r) ==> (r in after <==> r in before) && (r in before ==> after[r] == before[r])
    ensures plans[i].groupKey == key ==> DeltaFor(after, s, plans[i], rows)
    ensures plans[i].groupKey != key ==> (DeltaFor(before, s, plans[i], rows) ==> DeltaFor(after, s, plans[i], rows))
    ensures plans[i].groupKey != key ==> (plans[i].ruleId in after <==> plans[i].ruleId in before)
  {
    GroupMembers(plans, key);
    var g := GroupOf(plans, key);
    hide GroupOf, HitsOf, Tally;
    if plans[i].groupKey == key {
      assert plans[i] in g;
      var j :| 0 <= j < |g| && g[j] == plans[i];
      assert DeltaFor(after, s, g[j], rows);
    } else {
      assert Absent(g, plans[i].ruleId) by {
        forall j | 0 <= j < |g|
          ensures g[j].ruleId != plans[i].ruleId
        {
          assert g[j] in g;
          var k :| 0 <= k < |plans| && plans[k] == g[j];
        }
      }
    }
  }

  // ----- the service

  class RoutingAuditService {
    var small: Pos
    var large: Pos
    var epoch: nat
    var watermarks: map<int, Pos>
    var ignore: map<int, int>
    var summaries: map<int, Counts>
    var largeBacklogged: bool
    ghost var counted: map<int, set<Pos>>
    ghost var ever: map<int, set<Pos>>
    ghost var cut: int

    ghost function Contents(): Audit
      reads this
    {
      Audit(small, large, epoch, watermarks, ignore, summaries, counted, ever, cut)
    }

    constructor ()
      ensures Contents() == Start()
    {
      small, large, epoch := ORIGIN, ORIGIN, 0;
      watermarks, ignore, summaries, largeBacklogged := map[], map[], map[], false;
      counted, ever, cut := map[], map[], 0;
    }

    method ResetAnomalies(rule: int, now: int)
      modifies this
      ensures Contents() == Reset(old(Contents()), rule, now)
    {
      summaries := summaries - {rule};
      ignore := ignore[rule := now];
      counted := counted - {rule};
    }

    method ClearAnomalies()
      modifies this
      ensures Contents() == Cleared(old(Contents()))
    {
      summaries := map[];
      small, large := ORIGIN, ORIGIN;
      watermarks := map[];
      largeBacklogged := false;
      epoch := epoch + 1;
      counted, ever := map[], map[];
    }

    method PruneAnomalies(enabled: set<int>, exist: set<int>, now: Moment)
      modifies this
      ensures Contents() == Pruned(old(Contents()), enabled, exist, now)
    {
      var cutoff := CutoffOf(now);
      summaries := map r | r in summaries && r in enabled && Recent(summaries[r], cutoff) != map[] :: Recent(summaries[r], cutoff);
      watermarks := map r | r in watermarks && r in enabled :: watermarks[r];
      ignore := map r | r in ignore && r in exist :: ignore[r];
      counted := map r | r in counted && r in enabled :: counted[r];
      ever := map r | r in ever && r in enabled :: ever[r];
      cut := if cut < cutoff then cutoff else cut;
    }

    /** What other requests do while this scan reads and matches. */
    method Meanwhile(during: seq<Interrupt>)
      modifies this
      ensures Contents() == Interrupted(old(Contents()), during)
    {
      for i := 0 to |during|
        invariant Contents() == Interrupted(old(Contents()), during[..i])
      {
        assert during[..i + 1][..i] == during[..i];
        match during[i]
        case ResetRule(rule, now) => ResetAnomalies(rule, now);
        case SwitchOff => ClearAnomalies();
      }
      assert during[..|during|] == during;
    }

    method SetCursor(isLarge: bool, c: Pos)
      modifies this
      ensures Contents() == WithCursor(old(Contents()), isLarge, c)
    {
      if isLarge {
        large := c;
      } else {
        small := c;
      }
    }

    /** One rule: its watermark moves to the end of the batch, its delta is merged unless it was reset meanwhile. */
    method CommitOne(s: Snapshot, p: Plan, ghost rows: seq<Row>, next: Pos, deltas: Deltas)
      requires DeltaFor(deltas, s, p, rows)
      modifies this
      ensures Contents() == CommitRule(old(Contents()), s, p, rows, next)
    {
      hide HitsOf, Tally, Merged, PosOf;
      if p.ruleId !in watermarks || Less(watermarks[p.ruleId], next) {
        watermarks := watermarks[p.ruleId := next];
      }
      if p.ruleId !in deltas || IgnoreOf(ignore, p.ruleId) != IgnoreOf(s.ignore, p.ruleId) {
        return;
      }
      var sum := if p.ruleId in summaries then summaries[p.ruleId] else map[];
      summaries := summaries[p.ruleId := Merged(sum, deltas[p.ruleId])];
      ghost var hits := PosOf(HitsOf(s, p, rows));
      counted := counted[p.ruleId := SetOf(counted, p.ruleId) + hits];
      ever := ever[p.ruleId := SetOf(ever, p.ruleId) + hits];
    }

    method CommitBatch(s: Snapshot, plans: seq<Plan>, ghost rows: seq<Row>, next: Pos, deltas: Deltas)
      requires DeltasFor(deltas, s, plans, rows)
      modifies this
      ensures Contents() == CommitAll(old(Contents()), s, plans, rows, next)
    {
      hide DeltaFor, CommitRule;
      for i := 0 to |plans|
        invariant Contents() == CommitAll(old(Contents()), s, plans[..i], rows, next)
      {
        assert plans[..i + 1][..i] == plans[..i];
        CommitOne(s, plans[i], rows, next, deltas);
      }
      assert plans[..|plans|] == plans;
    }

    /**
     Without the switch nothing is counted and everything is cleared. An unreadable switch or an unreadable rule table
     changes nothing; a log that cannot be read ends the scan after the pruning.
     */
    method ScanAccessLog(enabledLog: Option<bool>, planned: bool, log: Option<seq<Row>>, plans: seq<Plan>, enabled: set<int>,
                         exist: set<int>, isLarge: bool, now: Moment, during: seq<Interrupt>) returns (ok: bool)
      requires DistinctRules(plans) && MatcherByKey(plans)
      modifies this
      ensures Contents() ==
        match enabledLog
        case None => old(Contents())
        case Some(false) => Cleared(old(Contents()))
        case Some(true) =>
          if !planned then old(Contents())
          else if log.None? then AfterUnreadScan(old(Contents()), plans, enabled, exist, isLarge, now, during)
          else AfterScan(old(Contents()), log.value, plans, enabled, exist, isLarge, now, during)
    {
      if enabledLog.None? {
        return false;
      }
      if !enabledLog.value {
        ClearAnomalies();
        return true;
      }
      hide Pruned, Interrupted, CommitAll, ReadAfter, OfClass, Less, WithCursor, DistinctRules, MatcherByKey;
      if !planned {
        return false;
      }
      var mine := ClassRules(plans, isLarge);
      PruneAnomalies(enabled, exist, now);
      if |mine| == 0 {
        SetCursor(isLarge, ORIGIN);
        if isLarge {
          largeBacklogged := false;
        }
        return true;
      }
      if log.None? {
        Meanwhile(during);
        return false;
      }
      ScanClass(log.value, mine, isLarge, now, during);
      return true;
    }

    /** The batch of one class that has rules: read after its cursor, match, and commit if nothing was cleared meanwhile. */
    method ScanClass(log: seq<Row>, mine: seq<Plan>, isLarge: bool, now: Moment, during: seq<Interrupt>)
      requires DistinctRules(mine) && MatcherByKey(mine)
      modifies this
      ensures Contents() == ClassScanned(old(Contents()), log, mine, isLarge, now, during)
    {
      hide Interrupted, CommitAll, ReadAfter, HitsOf, Less, WithCursor, DeltaFor, DistinctRules, MatcherByKey, FloorOf, CutoffOf;
      ghost var b := Contents();
      var cursor := if isLarge then large else small;
      if Less(cursor, FloorOf(now)) {
        cursor := FloorOf(now);
      }
      assert cursor == StartOf(b, isLarge, now);
      var began := epoch;
      var s := Snapshot(CutoffOf(now), ignore, watermarks);
      var rows := ReadAfter(log, cursor);
      var deltas := MatchRows(s, mine, rows, isLarge);
      var next := NextCursor(cursor, rows);
      hide StartOf, NextCursor, DeltasFor;
      Meanwhile(during);
      if epoch != began {
        return;
      }
      SetCursor(isLarge, next);
      CommitBatch(s, mine, rows, next, deltas);
      if isLarge {
        largeBacklogged := |rows| >= BATCH_ROWS;
      }
    }
  }

  function ClassScanned(b: Audit, log: seq<Row>, mine: seq<Plan>, large: bool, now: Moment, during: seq<Interrupt>): Audit {
    var start, s := StartOf(b, large, now), Snapshot(CutoffOf(now), b.ignore, b.marks);
    var rows, c := ReadAfter(log, start), Interrupted(b, during);
    var next := NextCursor(start, rows);
    if c.epoch != b.epoch then c else CommitAll(WithCursor(c, large, next), s, mine, rows, next)
  }

  method MatchRows(s: Snapshot, plans: seq<Plan>, rows: seq<Row>, large: bool) returns (deltas: Deltas)
    requires DistinctRules(plans) && MatcherByKey(plans)
    ensures DeltasFor(deltas, s, plans, rows)
  {
    if large {
      deltas := ScanLarge(s, plans, rows);
    } else {
      deltas := Accumulate(s, plans, (p: Plan) => p.matcher, rows, map[]);
    }
  }

  method ClassRules(plans: seq<Plan>, large: bool) returns (mine: seq<Plan>)
    requires DistinctRules(plans) && MatcherByKey(plans)
    ensures mine == OfClass(plans, large) && DistinctRules(mine) && MatcherByKey(mine)
  {
    mine := [];
    for i := 0 to |plans|
      invariant mine == OfClass(plans[..i], large)
    {
      assert plans[..i + 1][..i] == plans[..i];
      if plans[i].large == large {
        mine := mine + [plans[i]];
      }
    }
    assert plans[..|plans|] == plans;
    ClassPlans(plans, large);
    KeysStay(plans, mine);
  }

  lemma KeysStay(plans: seq<Plan>, mine: seq<Plan>)
    requires MatcherByKey(plans) && forall p :: p in mine ==> p in plans
    ensures MatcherByKey(mine)
  {
    forall i | 0 <= i < |mine|
      ensures exists j :: 0 <= j < |plans| && plans[j] == mine[i]
    {
      assert mine[i] in mine;
    }
  }
}
