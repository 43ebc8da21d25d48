/** Quota, expiry and the monthly traffic reset: who is switched off, why, and who comes back by itself. */
module Quota {
  import opened Calendar
  import opened Collections

  const RESET_OFF := 0
  const RESET_MONTHLY := 1
  const RESET_BILL_CYCLE := 2
  const MAX_RENEW_DAYS := 3650

  /** Who switched an inbound off last. The program keeps only whether it was the quota. */
  datatype Cause = ByAdmin | ByExpiry | ByQuota

  datatype Inbound = Inbound(
    id: int, enable: bool, up: int, down: int, total: int, expiry: int, mode: int, lastResetAt: int, byTraffic: bool)

  /** A row together with what really switched it off. */
  datatype Row = Row(inbound: Inbound, offBy: Cause)

  datatype Form = Form(enable: bool, up: int, down: int, total: int, expiry: int, mode: int)

  predicate ResetModeOk(mode: int, expiry: int) {
    mode == RESET_OFF || mode == RESET_MONTHLY || (mode == RESET_BILL_CYCLE && expiry > 0)
  }

  predicate ExpiredAt(x: Inbound, now: int) {
    x.expiry > 0 && x.expiry <= now
  }

  predicate OverQuota(x: Inbound) {
    x.total > 0 && x.up + x.down >= x.total
  }

  function ResetDayFor(x: Inbound, z: Zone): Option<nat> {
    if x.mode == RESET_MONTHLY then Some(1)
    else if x.mode == RESET_BILL_CYCLE && x.expiry > 0 then Some(z.dateOf(x.expiry).day)
    else None
  }

  // ----- one row through every operation

  function Created(id: int, f: Form): Row {
    Row(Inbound(id, f.enable, f.up, f.down, f.total, f.expiry, f.mode, 0, false), ByAdmin)
  }

  /** As written: the comparison with the stored switch comes after it was overwritten, so only switching on clears the mark. */
  function Edited(r: Row, f: Form, now: int): Row {
    var x := r.inbound;
    var y := x.(up := f.up, down := f.down, total := f.total, enable := f.enable, expiry := f.expiry);
    Row(y.(byTraffic := if f.enable || f.enable != y.enable then false else x.byTraffic,
           lastResetAt := if x.mode != f.mode then now else x.lastResetAt, mode := f.mode),
        if x.enable && !f.enable then ByAdmin else r.offBy)
  }

  function RenewedExpiry(expiry: int, now: int, days: int): int {
    (if expiry <= now then now else expiry) + days * DAY_MILLIS
  }

  predicate RenewArgsOk(days: int, expiryTime: int) {
    !(days == 0 && expiryTime == 0) && !(days != 0 && expiryTime != 0) && 0 <= days <= MAX_RENEW_DAYS && expiryTime >= 0
  }

  function Renewed(r: Row, days: int, expiryTime: int, now: int): Row {
    var expiry := if days > 0 then RenewedExpiry(r.inbound.expiry, now, days) else expiryTime;
    var x := r.inbound.(expiry := expiry, byTraffic := false);
    if expiry > now then r.(inbound := x.(enable := true, up := 0, down := 0)) else r.(inbound := x)
  }

  function ExpireOne(r: Row, now: int): Row {
    if ExpiredAt(r.inbound, now) && r.inbound.enable then Row(r.inbound.(enable := false), ByExpiry) else r
  }

  function CutOne(r: Row): Row {
    if OverQuota(r.inbound) && r.inbound.enable then Row(r.inbound.(enable := false, byTraffic := true), ByQuota) else r
  }

  /** Expiry first, so that it wins when both hold. */
  function Disabled(r: Row, now: int): Row {
    CutOne(ExpireOne(r, now))
  }

  predicate Due(x: Inbound, z: Zone, now: int) {
    x.mode > 0 && ResetDayFor(x, z).Some? && x.lastResetAt < ResetInstantFor(z, now, ResetDayFor(x, z).value)
  }

  predicate Reviving(x: Inbound, now: int) {
    x.byTraffic && !x.enable && !ExpiredAt(x, now)
  }

  function ResetOne(r: Row, z: Zone, now: int): Row {
    var x := r.inbound;
    if !Due(x, z, now) then r
    else
      var y := x.(up := 0, down := 0, lastResetAt := ResetInstantFor(z, now, ResetDayFor(x, z).value));
      r.(inbound := if Reviving(x, now) then y.(enable := true, byTraffic := false) else y)
  }

  function Metered(r: Row, up: nat, down: nat): Row {
    r.(inbound := r.inbound.(up := r.inbound.up + up, down := r.inbound.down + down))
  }

  // ----- the table

  /** The index of the row with this id, or the length. */
  function IndexOf(rows: seq<Row>, id: int): (i: nat)
    ensures i <= |rows| && (i < |rows| ==> rows[i].inbound.id == id) && forall j :: 0 <= j < i ==> rows[j].inbound.id != id
  {
    if rows == [] || rows[0].inbound.id == id then 0 else 1 + IndexOf(rows[1..], id)
  }

  class InboundService {
    var rows: seq<Row>

    constructor ()
      ensures rows == []
    {
      rows := [];
    }

    method UpdateRow(i: nat, x: Inbound, offBy: Cause)
      requires i < |rows|
      modifies this
      ensures rows == old(rows)[i := Row(x, offBy)]
    {
      rows := rows[i := Row(x, offBy)];
    }

    method DisableInvalidInbounds(now: int) returns (count: nat)
      modifies this
      ensures |rows| == |old(rows)| && forall i :: 0 <= i < |rows| ==> rows[i] == Disabled(old(rows)[i], now)
      ensures count == |set i | 0 <= i < |old(rows)| && old(rows)[i].inbound.enable && !rows[i].inbound.enable|
    {
      var expired, cut := 0, 0;
      ghost var off: set<int> := {};
      for i := 0 to |rows|
        invariant |rows| == |old(rows)| && expired == |off|
        invariant forall j :: 0 <= j < i ==> rows[j] == ExpireOne(old(rows)[j], now)
        invariant forall j :: i <= j < |rows| ==> rows[j] == old(rows)[j]
        invariant forall j :: j in off <==> 0 <= j < i && old(rows)[j].inbound.enable && !rows[j].inbound.enable
      {
        var x := rows[i].inbound;
        if x.expiry > 0 && x.expiry <= now && x.enable {
          UpdateRow(i, x.(enable := false), ByExpiry);
          expired := expired + 1;
          off := off + {i};
        }
      }
      ghost var middle := rows;
      for i := 0 to |rows|
        invariant |rows| == |old(rows)| && expired + cut == |off|
        invariant forall j :: 0 <= j < i ==> rows[j] == CutOne(middle[j])
        invariant forall j :: i <= j < |rows| ==> rows[j] == middle[j]
        invariant forall j :: j in off <==> 0 <= j < |rows| && old(rows)[j].inbound.enable && !rows[j].inbound.enable
      {
        var x := rows[i].inbound;
        if x.total > 0 && x.up + x.down >= x.total && x.enable {
          UpdateRow(i, x.(enable := false, byTraffic := true), ByQuota);
          cut := cut + 1;
          off := off + {i};
        }
      }
      assert off == set i | 0 <= i < |old(rows)| && old(rows)[i].inbound.enable && !rows[i].inbound.enable;
      count := expired + cut;
    }

    method ResetDueTraffic(z: Zone, now: int) returns (reset: nat, reEnabled: nat)
      modifies this
      ensures |rows| == |old(rows)| && forall i :: 0 <= i < |rows| ==> rows[i] == ResetOne(old(rows)[i], z, now)
      ensures reset == |set i | 0 <= i < |old(rows)| && Due(old(rows)[i].inbound, z, now)|
      ensures reEnabled == |set i | 0 <= i < |old(rows)| && !old(rows)[i].inbound.enable && rows[i].inbound.enable|
    {
      reset, reEnabled := 0, 0;
      ghost var due: set<int>, back: set<int> := {}, {};
      for i := 0 to |rows|
        invariant |rows| == |old(rows)| && reset == |due| && reEnabled == |back|
        invariant forall j :: 0 <= j < i ==> rows[j] == ResetOne(old(rows)[j], z, now)
        invariant forall j :: i <= j < |rows| ==> rows[j] == old(rows)[j]
        invariant forall j :: j in due <==> 0 <= j < i && Due(old(rows)[j].inbound, z, now)
        invariant forall j :: j in back <==> 0 <= j < i && !old(rows)[j].inbound.enable && rows[j].inbound.enable
      {
        hide ResetInstantFor;
        var x := rows[i].inbound;
        if x.mode <= 0 {
          continue;
        }
        var day := ResetDayFor(x, z);
        if day.None? {
          continue;
        }
        var instant := ResetInstantFor(z, now, day.value);
        if x.lastResetAt >= instant {
          continue;
        }
        var y := x.(up := 0, down := 0, lastResetAt := instant);
        var reviving := x.byTraffic && !x.enable && !ExpiredAt(x, now);
        if reviving {
          y := y.(enable := true, byTraffic := false);
        }
        UpdateRow(i, y, rows[i].offBy);
        due := due + {i};
        reset := reset + 1;
        if reviving {
          back := back + {i};
          reEnabled := reEnabled + 1;
        }
      }
      assert due == set i | 0 <= i < |old(rows)| && Due(old(rows)[i].inbound, z, now);
      assert back == set i | 0 <= i < |old(rows)| && !old(rows)[i].inbound.enable && rows[i].inbound.enable;
    }

    method AddInbound(id: int, f: Form) returns (ok: bool)
      modifies this
      ensures ok <==> ResetModeOk(f.mode, f.expiry)
      ensures rows == if ok then old(rows) + [Created(id, f)] else old(rows)
    {
      if !(f.mode == RESET_OFF || f.mode == RESET_MONTHLY || (f.mode == RESET_BILL_CYCLE && f.expiry > 0)) {
        return false;
      }
      rows := rows + [Created(id, f)];
      return true;
    }

    method UpdateInbound(id: int, f: Form, now: int) returns (ok: bool)
      modifies this
      ensures ok <==> ResetModeOk(f.mode, f.expiry) && IndexOf(old(rows), id) < |old(rows)|
      ensures var i := IndexOf(old(rows), id);
        rows == if ok then old(rows)[i := Edited(old(rows)[i], f, now)] else old(rows)
    {
      if !(f.mode == RESET_OFF || f.mode == RESET_MONTHLY || (f.mode == RESET_BILL_CYCLE && f.expiry > 0)) {
        return false;
      }
      var i := IndexOf(rows, id);
      if i == |rows| {
        return false;
      }
      var stored := rows[i].inbound;
      ghost var wasOn := stored.enable;
      stored := stored.(up := f.up, down := f.down, total := f.total);
      stored := stored.(enable := f.enable);
      stored := stored.(expiry := f.expiry);
      if f.enable || f.enable != stored.enable {
        stored := stored.(byTraffic := false);
      }
      if stored.mode != f.mode {
        stored := stored.(lastResetAt := now);
      }
      stored := stored.(mode := f.mode);
      UpdateRow(i, stored, if rows[i].inbound.enable && !f.enable then ByAdmin else rows[i].offBy);
      return true;
    }

    method RenewInbound(id: int, days: int, expiryTime: int, now: int) returns (ok: bool)
      modifies this
      ensures ok <==> RenewArgsOk(days, expiryTime) && IndexOf(old(rows), id) < |old(rows)|
      ensures var i := IndexOf(old(rows), id);
        rows == if ok then old(rows)[i := Renewed(old(rows)[i], days, expiryTime, now)] else old(rows)
    {
      if (days == 0 && expiryTime == 0) || (days != 0 && expiryTime != 0) || days < 0 || days > MAX_RENEW_DAYS || expiryTime < 0 {
        return false;
      }
      var i := IndexOf(rows, id);
      if i == |rows| {
        return false;
      }
      var x := rows[i].inbound;
      var newExpiry := expiryTime;
      if days > 0 {
        newExpiry := RenewedExpiry(x.expiry, now, days);
      }
      x := x.(expiry := newExpiry, byTraffic := false);
      if newExpiry > now {
        x := x.(enable := true, up := 0, down := 0);
      }
      UpdateRow(i, x, rows[i].offBy);
      return true;
    }
  }

  // ----- only quota-disabled inbounds revive themselves

  datatype Step =
    | Edit(form: Form)
    | Renew(days: int, expiryTime: int)
    | CheckJob
    | ResetJob
    | Traffic(up: nat, down: nat)

  datatype Timed = Timed(step: Step, now: int)

  function After(r: Row, t: Timed, z: Zone): Row {
    match t.step
    case Edit(f) => if ResetModeOk(f.mode, f.expiry) then Edited(r, f, t.now) else r
    case Renew(days, expiryTime) => if RenewArgsOk(days, expiryTime) then Renewed(r, days, expiryTime, t.now) else r
    case CheckJob => Disabled(r, t.now)
    case ResetJob => ResetOne(r, z, t.now)
    case Traffic(up, down) => Metered(r, up, down)
  }

  function RunOf(id: int, f: Form, z: Zone, steps: seq<Timed>): Row {
    if steps == [] then Created(id, f) else After(RunOf(id, f, z, steps[..|steps| - 1]), steps[|steps| - 1], z)
  }

  /** An enabled inbound carries no mark, and a marked one was last switched off by the quota. */
  predicate Marked(r: Row) {
    r.inbound.byTraffic ==> !r.inbound.enable && r.offBy == ByQuota
  }

  lemma StepKeepsMark(r: Row, t: Timed, z: Zone)
    requires Marked(r)
    ensures Marked(After(r, t, z))
  {
    hide ResetInstantFor, ResetDayFor;
  }

  /** The invariant the dead comparison leaves everything to, in every state of every run. */
  lemma {:induction false} RunsKeepMark(id: int, f: Form, z: Zone, steps: seq<Timed>)
    requires ResetModeOk(f.mode, f.expiry)
    ensures Marked(RunOf(id, f, z, steps))
  {
    if steps != [] {
      RunsKeepMark(id, f, z, steps[..|steps| - 1]);
      StepKeepsMark(RunOf(id, f, z, steps[..|steps| - 1]), steps[|steps| - 1], z);
    }
  }

  /**
   In any run, the reset switches an inbound on only if the quota was what switched it off, it has not expired and a
   new cycle has begun; what the admin or expiry switched off stays off.
   */
  lemma OnlyQuotaRevives(id: int, f: Form, z: Zone, steps: seq<Timed>, now: int)
    requires ResetModeOk(f.mode, f.expiry)
    ensures var r := RunOf(id, f, z, steps);
      !r.inbound.enable && ResetOne(r, z, now).inbound.enable ==>
        r.offBy == ByQuota && !ExpiredAt(r.inbound, now) && Due(r.inbound, z, now)
  {
    RunsKeepMark(id, f, z, steps);
    hide Due, RunOf;
  }

  /** The comparison that was meant to clear the mark when the admin switches an inbound off never holds. */
  lemma SwitchComparisonDead(r: Row, f: Form, now: int)
    ensures Edited(r, f, now).inbound.byTraffic == (r.inbound.byTraffic && !f.enable)
  {
  }

  /** Without the invariant an admin's switch-off would be undone: a marked enabled row keeps its mark and comes back. */
  lemma MarkedEnabledWouldReturn(r: Row, f: Form, z: Zone, now: int, later: int)
    requires r.inbound.enable && r.inbound.byTraffic && !f.enable && ResetModeOk(f.mode, f.expiry)
    requires var off := Edited(r, f, now); Due(off.inbound, z, later) && !ExpiredAt(off.inbound, later)
    ensures var off := Edited(r, f, now);
      off.offBy == ByAdmin && !off.inbound.enable && ResetOne(off, z, later).inbound.enable
  {
    hide Due;
  }

  /** What the reset switches on is not switched off again by the check at the same moment. */
  lemma RevivalHolds(r: Row, z: Zone, now: int)
    requires !r.inbound.enable && ResetOne(r, z, now).inbound.enable
    ensures Disabled(ResetOne(r, z, now), now) == ResetOne(r, z, now)
  {
    hide ResetInstantFor, ResetDayFor;
  }

  /** Expiry beats quota: an inbound for which both hold is not marked. */
  lemma ExpiryWins(r: Row, now: int)
    requires Marked(r) && r.inbound.enable && ExpiredAt(r.inbound, now)
    ensures var x := Disabled(r, now); !x.inbound.enable && !x.inbound.byTraffic && x.offBy == ByExpiry
  {
  }

  /** Renewing by days never shortens, and always leads past now. */
  lemma RenewalExtends(r: Row, days: int, now: int)
    requires RenewArgsOk(days, 0) && now >= 0
    ensures var x := Renewed(r, days, 0, now).inbound;
      x.expiry > now && x.expiry > r.inbound.expiry && x.enable && !ExpiredAt(x, now)
  {
  }

  // ----- once per cycle

  predicate NonDecreasing(times: seq<int>) {
    forall i, j :: 0 <= i <= j < |times| ==> times[i] <= times[j]
  }

  /** The last reset after a series of runs of the job. */
  function LastAfter(last: int, z: Zone, day: nat, times: seq<int>): int {
    if times == [] then last
    else
      var before, instant := LastAfter(last, z, day, times[..|times| - 1]), ResetInstantFor(z, times[|times| - 1], day);
      if before < instant then instant else before
  }

  /** Whether the run at this position resets. */
  predicate ResetsAt(last: int, z: Zone, day: nat, times: seq<int>, i: nat)
    requires i < |times|
  {
    LastAfter(last, z, day, times[..i]) < ResetInstantFor(z, times[i], day)
  }

  lemma {:induction false} LastIsMax(last: int, z: Zone, day: nat, times: seq<int>)
    ensures last <= LastAfter(last, z, day, times)
    ensures forall i :: 0 <= i < |times| ==> ResetInstantFor(z, times[i], day) <= LastAfter(last, z, day, times)
    ensures LastAfter(last, z, day, times) == last ||
      exists i :: 0 <= i < |times| && LastAfter(last, z, day, times) == ResetInstantFor(z, times[i], day)
  {
    hide ResetInstantFor;
    if times != [] {
      var front := times[..|times| - 1];
      LastIsMax(last, z, day, front);
      assert forall i :: 0 <= i < |front| ==> front[i] == times[i];
    }
  }

  /**
   Whatever the schedule of a job on a clock that does not run back: a run resets exactly when its cycle began after
   the last reset and no earlier run fell into the same cycle. So every cycle with a run is reset once, by its first.
   */
  lemma OncePerCycle(last: int, z: Zone, day: nat, times: seq<int>, i: nat)
    requires Lawful(z) && 1 <= day && NonDecreasing(times) && (forall t <- times :: t >= 0) && i < |times|
    ensures ResetsAt(last, z, day, times, i) <==>
      && last < ResetInstantFor(z, times[i], day)
      && forall j :: 0 <= j < i ==> NextResetInstantFor(z, times[j], day) <= times[i]
  {
    var front := times[..i];
    LastIsMax(last, z, day, front);
    assert times[i] in times;
    forall j | 0 <= j < i
      ensures ResetInstantFor(z, front[j], day) <= ResetInstantFor(z, times[i], day)
      ensures ResetInstantFor(z, front[j], day) < ResetInstantFor(z, times[i], day) <==> NextResetInstantFor(z, times[j], day) <= times[i]
    {
      assert times[j] in times;
      ResetInstantSteps(z, times[j], times[i], day);
    }
    hide ResetInstantFor, NextResetInstantFor;
  }

  /** The job on one row is that series: it resets by the cycle, and notes the cycle's instant. */
  lemma RowFollowsCycle(r: Row, z: Zone, now: int, day: nat)
    requires r.inbound.mode > 0 && ResetDayFor(r.inbound, z) == Some(day)
    ensures var x := ResetOne(r, z, now).inbound;
      && x.lastResetAt == LastAfter(r.inbound.lastResetAt, z, day, [now])
      && (ResetsAt(r.inbound.lastResetAt, z, day, [now], 0) ==> x.up == 0 && x.down == 0)
      && (!ResetsAt(r.inbound.lastResetAt, z, day, [now], 0) ==> x == r.inbound)
      && x.mode == r.inbound.mode && x.expiry == r.inbound.expiry
  {
    hide ResetInstantFor;
    assert [now][..0] == [];
  }

  // ----- a row over a whole schedule

  function RowAfter(r: Row, z: Zone, steps: seq<Timed>): Row {
    if steps == [] then r else After(RowAfter(r, z, steps[..|steps| - 1]), steps[|steps| - 1], z)
  }

  /** When the reset job ran. */
  function JobTimes(steps: seq<Timed>): seq<int> {
    if steps == [] then []
    else JobTimes(steps[..|steps| - 1]) + if steps[|steps| - 1].step.ResetJob? then [steps[|steps| - 1].now] else []
  }

  /** All through the schedule the row keeps its reset mode and the day of the month that goes with it. */
  predicate Steady(r: Row, z: Zone, day: nat, steps: seq<Timed>) {
    r.inbound.mode > 0 &&
    forall k :: 0 <= k <= |steps| ==>
      var x := RowAfter(r, z, steps[..k]).inbound; x.mode == r.inbound.mode && ResetDayFor(x, z) == Some(day)
  }

  predicate Quiet(t: Timed) {
    t.step.Traffic? || t.step.CheckJob? || t.step.ResetJob?
  }

  /** Traffic, checks and resets, however many and in whatever order, make a steady schedule. */
  lemma {:induction false} QuietIsSteady(r: Row, z: Zone, day: nat, steps: seq<Timed>)
    requires r.inbound.mode > 0 && ResetDayFor(r.inbound, z) == Some(day) && forall t <- steps :: Quiet(t)
    ensures Steady(r, z, day, steps)
  {
    hide ResetInstantFor;
    if steps == [] {
      assert forall k :: 0 <= k <= |steps| ==> steps[..k] == [];
    } else {
      var front, t := steps[..|steps| - 1], steps[|steps| - 1];
      assert t in steps && forall u <- front :: u in steps;
      QuietIsSteady(r, z, day, front);
      assert front[..|front|] == front && steps[..|steps|] == steps;
      assert forall k :: 0 <= k <= |front| ==> steps[..k] == front[..k];
      QuietKeepsDay(RowAfter(r, z, front), t, z);
      hide After, ResetDayFor, Quiet;
    }
  }

  lemma QuietKeepsDay(r: Row, t: Timed, z: Zone)
    requires Quiet(t)
    ensures var x := After(r, t, z).inbound; x.mode == r.inbound.mode && ResetDayFor(x, z) == ResetDayFor(r.inbound, z)
  {
    hide ResetInstantFor;
  }

  lemma SteadyFront(r: Row, z: Zone, day: nat, steps: seq<Timed>, n: nat)
    requires Steady(r, z, day, steps) && n <= |steps|
    ensures Steady(r, z, day, steps[..n])
    ensures var x := RowAfter(r, z, steps[..n]).inbound; x.mode == r.inbound.mode && ResetDayFor(x, z) == Some(day)
  {
    hide RowAfter, ResetDayFor;
    assert forall k :: 0 <= k <= n ==> steps[..n][..k] == steps[..k];
  }

  /** A step of any kind that leaves the mode alone touches the noted reset only as the job does. */
  lemma StepNotes(r: Row, t: Timed, z: Zone)
    requires After(r, t, z).inbound.mode == r.inbound.mode
    ensures After(r, t, z).inbound.lastResetAt == if t.step.ResetJob? then ResetOne(r, z, t.now).inbound.lastResetAt else r.inbound.lastResetAt
  {
    hide ResetInstantFor, ResetDayFor;
  }

  /** Through a steady schedule the noted reset is that of the series of the job's runs. */
  lemma {:induction false} RowIsSeries(r: Row, z: Zone, day: nat, steps: seq<Timed>)
    requires Steady(r, z, day, steps)
    ensures RowAfter(r, z, steps).inbound.lastResetAt == LastAfter(r.inbound.lastResetAt, z, day, JobTimes(steps))
  {
    if steps != [] {
      var front, t := steps[..|steps| - 1], steps[|steps| - 1];
      SteadyFront(r, z, day, steps, |front|);
      SteadyFront(r, z, day, steps, |steps|);
      assert steps[..|steps|] == steps;
      RowIsSeries(r, z, day, front);
      var before := RowAfter(r, z, front);
      assert RowAfter(r, z, steps) == After(before, t, z);
      assert JobTimes(steps) == JobTimes(front) + if t.step.ResetJob? then [t.now] else [];
      hide Steady, ResetInstantFor, After, ResetOne, RowAfter, JobTimes, LastAfter;
      StepNotes(before, t, z);
      if t.step.ResetJob? {
        RowFollowsCycle(before, z, t.now, day);
        SeriesSnoc(r.inbound.lastResetAt, z, day, JobTimes(front), t.now);
      } else {
        assert JobTimes(steps) == JobTimes(front);
      }
    }
  }

  lemma SeriesSnoc(last: int, z: Zone, day: nat, times: seq<int>, t: int)
    ensures LastAfter(last, z, day, times + [t]) == LastAfter(LastAfter(last, z, day, times), z, day, [t])
  {
    hide ResetInstantFor;
    assert (times + [t])[..|times|] == times && [t][..0] == [];
    assert LastAfter(LastAfter(last, z, day, times), z, day, []) == LastAfter(last, z, day, times);
  }

  /** The run of the job at a place of the schedule is the one with this number. */
  function JobNumber(steps: seq<Timed>, k: nat): nat
    requires k <= |steps|
  {
    |JobTimes(steps[..k])|
  }

  lemma {:induction false} JobsInOrder(steps: seq<Timed>, k: nat)
    requires k < |steps| && steps[k].step.ResetJob?
    ensures JobNumber(steps, k) < |JobTimes(steps)| && JobTimes(steps)[JobNumber(steps, k)] == steps[k].now
    ensures JobTimes(steps)[..JobNumber(steps, k)] == JobTimes(steps[..k])
    decreases |steps|
  {
    var front := steps[..|steps| - 1];
    if k < |front| {
      JobsInOrder(front, k);
      assert front[..k] == steps[..k];
    }
  }

  lemma {:induction false} JobFound(steps: seq<Timed>, i: nat) returns (k: nat)
    requires i < |JobTimes(steps)|
    ensures k < |steps| && steps[k].step.ResetJob? && JobNumber(steps, k) == i
    decreases |steps|
  {
    var front := steps[..|steps| - 1];
    if i < |JobTimes(front)| {
      k := JobFound(front, i);
      assert front[..k] == steps[..k];
    } else {
      k := |front|;
    }
  }

  /** Whether the run of the job at this place of the schedule resets the row. */
  predicate RowResetsAt(r: Row, z: Zone, steps: seq<Timed>, k: nat)
    requires k < |steps|
  {
    steps[k].step.ResetJob? && Due(RowAfter(r, z, steps[..k]).inbound, z, steps[k].now)
  }

  /** A run of the job zeroes the traffic and notes its cycle if it resets, and otherwise leaves the row as it is. */
  lemma ResetOrNothing(r: Row, z: Zone, day: nat, steps: seq<Timed>, k: nat)
    requires Steady(r, z, day, steps) && k < |steps| && steps[k].step.ResetJob?
    ensures var before, after := RowAfter(r, z, steps[..k]), RowAfter(r, z, steps[..k + 1]);
      if RowResetsAt(r, z, steps, k)
      then after.inbound.up == 0 && after.inbound.down == 0 && after.inbound.lastResetAt == ResetInstantFor(z, steps[k].now, day)
      else after == before
  {
    SteadyFront(r, z, day, steps, k);
    assert steps[..k + 1][..k] == steps[..k];
    hide Steady, ResetInstantFor;
  }

  /** The row is reset by exactly those runs by which the series is. */
  lemma RowResetsBySeries(r: Row, z: Zone, day: nat, steps: seq<Timed>, k: nat)
    requires Steady(r, z, day, steps) && k < |steps| && steps[k].step.ResetJob?
    ensures JobNumber(steps, k) < |JobTimes(steps)|
    ensures RowResetsAt(r, z, steps, k) <==> ResetsAt(r.inbound.lastResetAt, z, day, JobTimes(steps), JobNumber(steps, k))
  {
    SteadyFront(r, z, day, steps, k);
    RowIsSeries(r, z, day, steps[..k]);
    JobsInOrder(steps, k);
    hide Steady, ResetInstantFor, RowAfter, JobTimes, LastAfter;
  }

  /**
   Once per cycle for the row itself: through any schedule of traffic, checks, edits, renewals and runs of the job in
   which the reset day stays, on a clock that does not run back, a cycle that began after the last reset and has a run
   of the job resets the row exactly once, by its first run; any other cycle never does.
   */
  lemma RowOncePerCycle(r: Row, z: Zone, day: nat, steps: seq<Timed>, cycle: int)
    requires Lawful(z) && 1 <= day && Steady(r, z, day, steps)
    requires NonDecreasing(JobTimes(steps)) && forall t <- JobTimes(steps) :: t >= 0
    ensures (exists k :: 0 <= k < |steps| && ResetsIn(r, z, day, steps, k, cycle)) <==>
      r.inbound.lastResetAt < cycle && exists k :: 0 <= k < |steps| && RunsIn(z, day, steps, k, cycle)
    ensures forall j, k :: 0 <= j < |steps| && 0 <= k < |steps| ==>
      (ResetsIn(r, z, day, steps, j, cycle) && ResetsIn(r, z, day, steps, k, cycle) ==> j == k)
    ensures forall j, k :: 0 <= j < k < |steps| && RunsIn(z, day, steps, j, cycle) ==> !ResetsIn(r, z, day, steps, k, cycle)
  {
    hide Steady, ResetInstantFor;
    if k :| 0 <= k < |steps| && ResetsIn(r, z, day, steps, k, cycle) {
      ResetMeansFirst(r, z, day, steps, k, cycle);
    }
    if r.inbound.lastResetAt < cycle && exists k :: 0 <= k < |steps| && RunsIn(z, day, steps, k, cycle) {
      var k := FirstRunIn(z, day, steps, cycle);
      FirstRunResets(r, z, day, steps, k, cycle);
    }
    forall j, k | 0 <= j < k < |steps| && RunsIn(z, day, steps, j, cycle)
      ensures !ResetsIn(r, z, day, steps, k, cycle)
    {
      if ResetsIn(r, z, day, steps, k, cycle) {
        ResetMeansFirst(r, z, day, steps, k, cycle);
      }
    }
    hide ResetsIn, RunsIn;
    assert forall k :: 0 <= k < |steps| && ResetsIn(r, z, day, steps, k, cycle) ==> RunsIn(z, day, steps, k, cycle) by {
      RunsWhereResets(r, z, day, steps, cycle);
    }
  }

  /** A run of the job at this place, within the cycle that began at this instant. */
  predicate RunsIn(z: Zone, day: nat, steps: seq<Timed>, k: nat, cycle: int)
    requires k < |steps|
  {
    steps[k].step.ResetJob? && ResetInstantFor(z, steps[k].now, day) == cycle
  }

  predicate ResetsIn(r: Row, z: Zone, day: nat, steps: seq<Timed>, k: nat, cycle: int)
    requires k < |steps|
  {
    RunsIn(z, day, steps, k, cycle) && RowResetsAt(r, z, steps, k)
  }

  lemma RunsWhereResets(r: Row, z: Zone, day: nat, steps: seq<Timed>, cycle: int)
    ensures forall k :: 0 <= k < |steps| && ResetsIn(r, z, day, steps, k, cycle) ==> RunsIn(z, day, steps, k, cycle)
  {
  }

  /** An earlier run has a lower number in the series. */
  lemma JobsEarlier(steps: seq<Timed>, j: nat, k: nat)
    requires j < k < |steps| && steps[j].step.ResetJob? && steps[k].step.ResetJob?
    ensures JobNumber(steps, j) < JobNumber(steps, k) < |JobTimes(steps)|
    ensures JobTimes(steps)[JobNumber(steps, j)] == steps[j].now
  {
    JobsInOrder(steps, k);
    JobsInOrder(steps, j);
    JobsInOrder(steps[..k], j);
    hide JobTimes;
    assert steps[..k][..j] == steps[..j];
  }

  lemma ResetMeansFirst(r: Row, z: Zone, day: nat, steps: seq<Timed>, k: nat, cycle: int)
    requires Lawful(z) && 1 <= day && Steady(r, z, day, steps)
    requires NonDecreasing(JobTimes(steps)) && forall t <- JobTimes(steps) :: t >= 0
    requires k < |steps| && ResetsIn(r, z, day, steps, k, cycle)
    ensures r.inbound.lastResetAt < cycle && forall j :: 0 <= j < k ==> !RunsIn(z, day, steps, j, cycle)
  {
    var times, n := JobTimes(steps), JobNumber(steps, k);
    RowResetsBySeries(r, z, day, steps, k);
    JobsInOrder(steps, k);
    OncePerCycle(r.inbound.lastResetAt, z, day, times, n);
    hide JobTimes, JobNumber, Steady, RowResetsAt, ResetInstantFor, NextResetInstantFor, LastAfter, Lawful;
    forall j | 0 <= j < k
      ensures !RunsIn(z, day, steps, j, cycle)
    {
      if steps[j].step.ResetJob? {
        JobsEarlier(steps, j, k);
        var m := JobNumber(steps, j);
        assert times[m] in times;
        ResetInstantSteps(z, times[m], times[n], day);
      }
    }
  }

  lemma FirstRunIn(z: Zone, day: nat, steps: seq<Timed>, cycle: int) returns (k: nat)
    requires exists k :: 0 <= k < |steps| && RunsIn(z, day, steps, k, cycle)
    ensures k < |steps| && RunsIn(z, day, steps, k, cycle) && forall j :: 0 <= j < k ==> !RunsIn(z, day, steps, j, cycle)
  {
    hide RunsIn;
    k := 0;
    while !RunsIn(z, day, steps, k, cycle)
      invariant k < |steps| && forall j :: 0 <= j < k ==> !RunsIn(z, day, steps, j, cycle)
      decreases |steps| - k
    {
      k := k + 1;
    }
  }

  lemma FirstRunResets(r: Row, z: Zone, day: nat, steps: seq<Timed>, k: nat, cycle: int)
    requires Lawful(z) && 1 <= day && Steady(r, z, day, steps)
    requires NonDecreasing(JobTimes(steps)) && forall t <- JobTimes(steps) :: t >= 0
    requires k < |steps| && RunsIn(z, day, steps, k, cycle) && forall j :: 0 <= j < k ==> !RunsIn(z, day, steps, j, cycle)
    requires r.inbound.lastResetAt < cycle
    ensures ResetsIn(r, z, day, steps, k, cycle)
  {
    var times, n := JobTimes(steps), JobNumber(steps, k);
    RowResetsBySeries(r, z, day, steps, k);
    JobsInOrder(steps, k);
    OncePerCycle(r.inbound.lastResetAt, z, day, times, n);
    forall m | 0 <= m < n
      ensures NextResetInstantFor(z, times[m], day) <= times[n]
    {
      var j := JobFound(steps[..k], m);
      JobsInOrder(steps[..k], j);
      assert times[m] == steps[j].now && !RunsIn(z, day, steps, j, cycle);
      assert times[m] in times;
      ResetInstantSteps(z, times[m], times[n], day);
    }
  }

  // ----- what the panel promises

  datatype Reason = Expired | Manual | OverTraffic

  function DisabledReasonOf(x: Inbound, now: int, z: Zone): (Reason, int) {
    if ExpiredAt(x, now) then (Expired, 0)
    else if !x.byTraffic then (Manual, 0)
    else
      match ResetDayFor(x, z)
      case None => (OverTraffic, 0)
      case Some(day) =>
        var next := NextResetInstantFor(z, now, day);
        if x.expiry > 0 && x.expiry <= next then (OverTraffic, 0) else (OverTraffic, next)
  }

  /**
   A promise kept: left alone, the inbound stays as it is in every run before the shown instant, and is switched on by
   any run after it, unless it has expired by the time that run takes place.
   */
  ghost predicate Kept(r: Row, z: Zone, now: int, next: int) {
    forall run :: now <= run ==>
      if run < next then ResetOne(r, z, run) == r else (ResetOne(r, z, run).inbound.enable <==> !ExpiredAt(r.inbound, run))
  }

  /**
   The shown moment is kept if and only if the noted reset lies in the present cycle: neither before it, when the row is
   still due and the next run switches it on at once, nor at or after the shown moment itself.
   */
  lemma PromiseKept(r: Row, z: Zone, now: int)
    requires Lawful(z) && 0 <= now && !r.inbound.enable && r.inbound.mode > 0
    requires DisabledReasonOf(r.inbound, now, z).0 == OverTraffic && DisabledReasonOf(r.inbound, now, z).1 != 0
    ensures ResetDayFor(r.inbound, z).Some?
    ensures var next := DisabledReasonOf(r.inbound, now, z).1;
      && now < next && !ExpiredAt(r.inbound, next)
      && (Kept(r, z, now, next) <==> ResetInstantFor(z, now, ResetDayFor(r.inbound, z).value) <= r.inbound.lastResetAt < next)
  {
    var day, next := ResetDayFor(r.inbound, z).value, DisabledReasonOf(r.inbound, now, z).1;
    ResetDayIsDay(r.inbound, z);
    NextIsInstant(z, now, day);
    if ResetInstantFor(z, now, day) <= r.inbound.lastResetAt < next {
      InCycleKept(r, z, now, day);
    } else if r.inbound.lastResetAt < ResetInstantFor(z, now, day) {
      DueAtOnce(r, z, now);
      hide ResetInstantFor, NextResetInstantFor, MonthlyInstant, ResetDayFor, ResetOne;
      assert ResetOne(r, z, now) != r;
    } else {
      hide ResetInstantFor, NextResetInstantFor, MonthlyInstant, ResetDayFor;
      assert ResetOne(r, z, next) == r;
    }
  }

  lemma InCycleKept(r: Row, z: Zone, now: int, day: nat)
    requires Lawful(z) && 0 <= now && 1 <= day && r.inbound.mode > 0 && ResetDayFor(r.inbound, z) == Some(day)
    requires !r.inbound.enable && r.inbound.byTraffic
    requires ResetInstantFor(z, now, day) <= r.inbound.lastResetAt < NextResetInstantFor(z, now, day)
    ensures Kept(r, z, now, NextResetInstantFor(z, now, day))
  {
    var next := NextResetInstantFor(z, now, day);
    NextIsInstant(z, now, day);
    forall run | now <= run
      ensures if run < next then ResetOne(r, z, run) == r else (ResetOne(r, z, run).inbound.enable <==> !ExpiredAt(r.inbound, run))
    {
      ResetInstantSteps(z, now, run, day);
      if next <= run {
        ResetInstantSteps(z, next, run, day);
      }
      hide ResetInstantFor, NextResetInstantFor, MonthlyInstant, ResetDayFor;
    }
  }

  /** The next instant begins its own cycle. */
  lemma NextIsInstant(z: Zone, now: int, day: nat)
    requires Lawful(z) && 0 <= now && 1 <= day
    ensures now < NextResetInstantFor(z, now, day)
    ensures ResetInstantFor(z, NextResetInstantFor(z, now, day), day) == NextResetInstantFor(z, now, day)
  {
    NextResetInstantEarliest(z, now, day, 0);
    var next := NextResetInstantFor(z, now, day);
    var n: nat :| next == MonthlyInstant(z, n, day);
    ResetInstantLatest(z, next, day, n);
  }

  /** A row whose reset is still due comes back in the very next run, before the moment that is shown. */
  lemma DueAtOnce(r: Row, z: Zone, now: int)
    requires Due(r.inbound, z, now) && !r.inbound.enable && DisabledReasonOf(r.inbound, now, z).0 == OverTraffic
    ensures ResetOne(r, z, now).inbound.enable
  {
    hide Due, ResetDayFor, ResetInstantFor;
  }

  /** Such a row is reached: a new one that goes over its quota before the reset job ever ran. */
  lemma DueReached(id: int, z: Zone, now: int)
    requires Lawful(z) && 0 <= now && 0 < ResetInstantFor(z, now, 1)
    ensures var f := Form(true, 0, 0, 1, 0, RESET_MONTHLY);
      var r := RunOf(id, f, z, [Timed(Traffic(1, 0), now), Timed(CheckJob, now)]);
      && ResetModeOk(f.mode, f.expiry)
      && !r.inbound.enable && Due(r.inbound, z, now)
      && DisabledReasonOf(r.inbound, now, z).0 == OverTraffic && now < DisabledReasonOf(r.inbound, now, z).1
      && ResetOne(r, z, now).inbound.enable
  {
    OverAtOnce(id, z, now);
    var r := Row(Inbound(id, false, 1, 0, 1, 0, RESET_MONTHLY, 0, true), ByQuota);
    NextResetInstantEarliest(z, now, 1, 0);
    hide ResetInstantFor, NextResetInstantFor, MonthlyInstant, RunOf;
    assert ResetDayFor(r.inbound, z) == Some(1);
    assert Due(r.inbound, z, now) && DisabledReasonOf(r.inbound, now, z) == (OverTraffic, NextResetInstantFor(z, now, 1));
    DueAtOnce(r, z, now);
  }

  lemma OverAtOnce(id: int, z: Zone, now: int)
    ensures RunOf(id, Form(true, 0, 0, 1, 0, RESET_MONTHLY), z, [Timed(Traffic(1, 0), now), Timed(CheckJob, now)])
         == Row(Inbound(id, false, 1, 0, 1, 0, RESET_MONTHLY, 0, true), ByQuota)
  {
    var f := Form(true, 0, 0, 1, 0, RESET_MONTHLY);
    var used, checked := Timed(Traffic(1, 0), now), Timed(CheckJob, now);
    hide ResetOne, Renewed, Edited;
    assert [used, checked][..1] == [used] && [used][..0] == [];
    assert RunOf(id, f, z, []) == Created(id, f);
    assert RunOf(id, f, z, [used]) == Metered(Created(id, f), 1, 0);
    assert RunOf(id, f, z, [used, checked]) == Disabled(Metered(Created(id, f), 1, 0), now);
  }

  /** A cycle's day is a day of the month. */
  lemma ResetDayIsDay(x: Inbound, z: Zone)
    requires Lawful(z) && ResetDayFor(x, z).Some?
    ensures 1 <= ResetDayFor(x, z).value <= 31
  {
    if x.mode == RESET_BILL_CYCLE {
      assert OnDay(z, x.expiry, z.dateOf(x.expiry));
    }
  }

  // ----- what the single steps mean

  /** A check switches off exactly the enabled rows that have expired or used up their quota, for that reason. */
  lemma DisabledExactly(r: Row, now: int)
    ensures var x, y := r.inbound, Disabled(r, now);
      && (x.enable && !y.inbound.enable <==>
            x.enable && ((0 < x.expiry <= now) || (x.total > 0 && x.up + x.down >= x.total)))
      && (x.enable && !y.inbound.enable ==> y.offBy == if 0 < x.expiry <= now then ByExpiry else ByQuota)
      && y.inbound.(enable := x.enable, byTraffic := x.byTraffic) == x && (!x.enable ==> y == r)
  {
  }

  /** Renewing adds whole days to the later of expiry and now. */
  lemma RenewedByDays(r: Row, days: int, now: int)
    requires RenewArgsOk(days, 0)
    ensures var from, after := r.inbound.expiry, Renewed(r, days, 0, now).inbound.expiry;
      && (from <= now ==> after - now == days * 86_400_000)
      && (from > now ==> after - from == days * 86_400_000)
  {
  }

  /** Renewing to a date sets that date; if it is still to come, the row is on and its counters start anew. */
  lemma RenewedTo(r: Row, expiryTime: int, now: int)
    requires expiryTime > 0
    ensures var x := Renewed(r, 0, expiryTime, now).inbound;
      && x.expiry == expiryTime && !x.byTraffic
      && (if expiryTime > now then x.enable && x.up == 0 && x.down == 0
          else x.enable == r.inbound.enable && x.up == r.inbound.up && x.down == r.inbound.down)
  {
  }

  /** An edit takes over what the form has; only a change of the reset mode moves the noted reset, to now. */
  lemma EditTakesForm(r: Row, f: Form, now: int)
    ensures var x := Edited(r, f, now).inbound;
      && x.id == r.inbound.id && Form(x.enable, x.up, x.down, x.total, x.expiry, x.mode) == f
      && x.lastResetAt == if f.mode == r.inbound.mode then r.inbound.lastResetAt else now
  {
  }

  /** A billing cycle begins on the day of the month on which the inbound expires, and a monthly one on the first. */
  lemma CycleDay(x: Inbound, z: Zone)
    requires Lawful(z)
    ensures x.mode == RESET_MONTHLY ==> ResetDayFor(x, z) == Some(1)
    ensures x.mode == RESET_BILL_CYCLE && x.expiry > 0 ==>
      var d := z.dateOf(x.expiry);
      ResetDayFor(x, z) == Some(d.day) && MonthlyInstant(z, d.month, d.day) <= x.expiry < z.midnight(Number(d) + 1)
    ensures x.mode == RESET_OFF ==> ResetDayFor(x, z) == None
  {
    if x.mode == RESET_BILL_CYCLE && x.expiry > 0 {
      assert OnDay(z, x.expiry, z.dateOf(x.expiry));
    }
  }
}
