/**
 Counting stray connections from the access log: two size classes of rules with a cursor each, a watermark per rule
 that survives a change of class, resets and switch-offs in between.
 */
module Anomaly {
  import opened Collections

  const BUCKET_MILLIS := 3_600_000
  const WINDOW_MILLIS := 24 * 3_600_000
  const BATCH_ROWS := 20_000
  const MAX_ID := 0x7FFF_FFFF_FFFF_FFFF

  /** A place in the log; rows are ordered by time, then id. */
  datatype Pos = Pos(time: nat, id: RowId)

  type RowId = i: int | 0 <= i <= MAX_ID

  /** The present: at least a window after the beginning of time. */
  type Moment = t: int | t > WINDOW_MILLIS witness WINDOW_MILLIS + 1

  predicate Less(a: Pos, b: Pos) {
    a.time < b.time || (a.time == b.time && a.id < b.id)
  }

  datatype Row = Row(pos: Pos, accepted: bool, inbound: int, route: string, source: string, target: string)

  predicate Ascending(log: seq<Row>) {
    forall i, j :: 0 <= i < j < |log| ==> Less(log[i].pos, log[j].pos)
  }

  /**
   A rule as planned for a scan: whom it covers, which connections strayed from it (wrong outbound, and neither
   unmatched nor blocked by region), and the matcher of its domain groups, shared by all rules of one group key.
   */
  datatype Plan = Plan(
    ruleId: int, large: bool, groupKey: string, coverage: set<int>, strayed: Row -> bool, matcher: Option<string -> bool>)

  function HourOf(time: nat): int {
    time / BUCKET_MILLIS
  }

  /** What a scan looks at: the hour the window begins in, the ignore times and the watermarks when it began. */
  datatype Snapshot = Snapshot(cutoff: int, ignore: map<int, int>, marks: map<int, Pos>)

  function IgnoreOf(ignore: map<int, int>, rule: int): int {
    if rule in ignore then ignore[rule] else 0
  }

  /** Everything but the target. */
  predicate Candidate(s: Snapshot, p: Plan, r: Row) {
    && r.accepted && HourOf(r.pos.time) >= s.cutoff
    && r.inbound in p.coverage && r.pos.time >= IgnoreOf(s.ignore, p.ruleId)
    && (p.ruleId in s.marks ==> Less(s.marks[p.ruleId], r.pos))
    && p.strayed(r)
  }

  predicate Hit(s: Snapshot, p: Plan, r: Row) {
    p.matcher.Some? && Candidate(s, p, r) && p.matcher.value(r.target)
  }

  function HitsOf(s: Snapshot, p: Plan, rows: seq<Row>): seq<Row> {
    if rows == [] then []
    else HitsOf(s, p, rows[..|rows| - 1]) + if Hit(s, p, rows[|rows| - 1]) then [rows[|rows| - 1]] else []
  }

  /** Connections per hour. */
  type Counts = map<int, nat>

  function Bump(c: Counts, hour: int, n: nat): Counts {
    c[hour := (if hour in c then c[hour] else 0) + n]
  }

  function Tally(hits: seq<Row>): Counts {
    if hits == [] then map[] else Bump(Tally(hits[..|hits| - 1]), HourOf(hits[|hits| - 1].pos.time), 1)
  }

  function CountAt(c: Counts, hour: int): nat {
    if hour in c then c[hour] else 0
  }

  function Merged(a: Counts, b: Counts): Counts {
    map h | h in a.Keys + b.Keys :: CountAt(a, h) + CountAt(b, h)
  }

  /** The rows after a place, as many as one batch takes. */
  function Later(log: seq<Row>, cursor: Pos): seq<Row> {
    if log == [] then []
    else Later(log[..|log| - 1], cursor) + if Less(cursor, log[|log| - 1].pos) then [log[|log| - 1]] else []
  }

  function ReadAfter(log: seq<Row>, cursor: Pos): seq<Row> {
    var rows := Later(log, cursor);
    if |rows| > BATCH_ROWS then rows[..BATCH_ROWS] else rows
  }

  function NextCursor(cursor: Pos, rows: seq<Row>): Pos {
    if rows == [] then cursor else rows[|rows| - 1].pos
  }

  // ----- the state

  /**
   Cursors and watermarks, the sums per rule and hour, the ignore times. An observer also knows which rows are in the
   present sums, which were counted while the watermark has existed, and the earliest hour not yet pruned.
   */
  datatype Audit = Audit(
    small: Pos, large: Pos, epoch: nat, marks: map<int, Pos>, ignore: map<int, int>, sums: map<int, Counts>,
    counted: map<int, set<Pos>>, ever: map<int, set<Pos>>, cut: int)

  const ORIGIN := Pos(0, 0)

  function CursorOf(a: Audit, large: bool): Pos {
    if large then a.large else a.small
  }

  function WithCursor(a: Audit, large: bool, c: Pos): Audit {
    if large then a.(large := c) else a.(small := c)
  }

  /** The access log was switched off: everything goes but the ignore times. */
  function Cleared(a: Audit): Audit {
    a.(small := ORIGIN, large := ORIGIN, epoch := a.epoch + 1, marks := map[], sums := map[], counted := map[], ever := map[])
  }

  /** Earlier anomalies of one rule are dismissed. */
  function Reset(a: Audit, rule: int, now: int): Audit {
    a.(sums := a.sums - {rule}, ignore := a.ignore[rule := now], counted := a.counted - {rule})
  }

  function CutoffOf(now: Moment): int {
    HourOf(now - WINDOW_MILLIS)
  }

  function Recent(c: Counts, cutoff: int): Counts {
    map h | h in c && h >= cutoff :: c[h]
  }

  /** Old hours go, and with a rule that is not enabled its sums and its watermark. */
  function Pruned(a: Audit, enabled: set<int>, exist: set<int>, now: Moment): Audit {
    var cutoff := CutoffOf(now);
    a.(sums := map r | r in a.sums && r in enabled && Recent(a.sums[r], cutoff) != map[] :: Recent(a.sums[r], cutoff),
       marks := map r | r in a.marks && r in enabled :: a.marks[r],
       ignore := map r | r in a.ignore && r in exist :: a.ignore[r],
       counted := map r | r in a.counted && r in enabled :: a.counted[r],
       ever := map r | r in a.ever && r in enabled :: a.ever[r],
       cut := if a.cut < cutoff then cutoff else a.cut)
  }

  function FloorOf(now: Moment): Pos {
    Pos(now - WINDOW_MILLIS - 1, MAX_ID)
  }

  function StartOf(a: Audit, large: bool, now: Moment): Pos {
    if Less(CursorOf(a, large), FloorOf(now)) then FloorOf(now) else CursorOf(a, large)
  }

  function PosOf(rows: seq<Row>): set<Pos> {
    set r | r in rows :: r.pos
  }

  function SetOf(m: map<int, set<Pos>>, rule: int): set<Pos> {
    if rule in m then m[rule] else {}
  }

  function SumsFor(a: Audit, rule: int): Counts {
    if rule in a.sums then a.sums[rule] else map[]
  }

  /** One rule's share of a finished batch; it is dropped when the rule was reset meanwhile. */
  function CommitRule(a: Audit, s: Snapshot, p: Plan, rows: seq<Row>, next: Pos): Audit {
    var hits := HitsOf(s, p, rows);
    var mark := if p.ruleId in a.marks && !Less(a.marks[p.ruleId], next) then a.marks[p.ruleId] else next;
    var b := a.(marks := a.marks[p.ruleId := mark]);
    if hits == [] || IgnoreOf(a.ignore, p.ruleId) != IgnoreOf(s.ignore, p.ruleId) then b
    else
      b.(sums := a.sums[p.ruleId := Merged(SumsFor(a, p.ruleId), Tally(hits))],
         counted := a.counted[p.ruleId := SetOf(a.counted, p.ruleId) + PosOf(hits)],
         ever := a.ever[p.ruleId := SetOf(a.ever, p.ruleId) + PosOf(hits)])
  }

  function CommitAll(a: Audit, s: Snapshot, plans: seq<Plan>, rows: seq<Row>, next: Pos): Audit {
    if plans == [] then a
    else CommitRule(CommitAll(a, s, plans[..|plans| - 1], rows, next), s, plans[|plans| - 1], rows, next)
  }

  function OfClass(plans: seq<Plan>, large: bool): seq<Plan> {
    if plans == [] then []
    else OfClass(plans[..|plans| - 1], large) + if plans[|plans| - 1].large == large then [plans[|plans| - 1]] else []
  }

  /** What can happen while a batch is being read and matched. */
  datatype Interrupt = ResetRule(rule: int, now: int) | SwitchOff

  function Interrupted(a: Audit, during: seq<Interrupt>): Audit {
    if during == [] then a
    else
      var b := Interrupted(a, during[..|during| - 1]);
      match during[|during| - 1]
      case ResetRule(rule, now) => Reset(b, rule, now)
      case SwitchOff => Cleared(b)
  }

  /** A scan of one class: prune, read, match outside the lock, commit unless everything was cleared meanwhile. */
  function AfterScan(a: Audit, log: seq<Row>, plans: seq<Plan>, enabled: set<int>, exist: set<int>, large: bool,
                     now: Moment, during: seq<Interrupt>): Audit {
    var b, mine := Pruned(a, enabled, exist, now), OfClass(plans, large);
    if mine == [] then WithCursor(b, large, ORIGIN)
    else
      var start, s := StartOf(b, large, now), Snapshot(CutoffOf(now), b.ignore, b.marks);
      var rows := ReadAfter(log, start);
      var c := Interrupted(b, during);
      if c.epoch != b.epoch then c
      else
        var next := NextCursor(start, rows);
        CommitAll(WithCursor(c, large, next), s, mine, rows, next)
  }

  /** A scan whose read of the log fails ends there. */
  function AfterUnreadScan(a: Audit, plans: seq<Plan>, enabled: set<int>, exist: set<int>, large: bool, now: Moment,
                           during: seq<Interrupt>): Audit {
    var b := Pruned(a, enabled, exist, now);
    if OfClass(plans, large) == [] then WithCursor(b, large, ORIGIN) else Interrupted(b, during)
  }

  // ----- what holds in every state

  /** Counted rows lie at or below the rule's watermark, and not before its ignore time. */
  ghost predicate BelowMark(a: Audit, rule: int) {
    && SetOf(a.counted, rule) <= SetOf(a.ever, rule)
    && (forall x <- SetOf(a.ever, rule) :: rule in a.marks && !Less(a.marks[rule], x))
    && (forall x <- SetOf(a.counted, rule) :: x.time >= IgnoreOf(a.ignore, rule))
  }

  function InHour(s: set<Pos>, hour: int): set<Pos> {
    set x | x in s && HourOf(x.time) == hour
  }

  /** Each hour's sum is the number of rows counted in it. */
  ghost predicate SumsRight(a: Audit, rule: int) {
    forall h :: h >= a.cut ==> CountAt(SumsFor(a, rule), h) == |InHour(SetOf(a.counted, rule), h)|
  }

  ghost predicate Inv(a: Audit) {
    (forall r :: BelowMark(a, r)) && forall r :: SumsRight(a, r)
  }
}
