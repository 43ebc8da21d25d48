/** A restart of the process in the middle of an hour: what is in memory goes, what is stored stays and is written over. */
module SharingRestart {
  import opened Collections
  import opened Sharing
  import opened SharingExact

  // ----- a new process on the rows of an old one

  function RunFrom(w: World, events: seq<Event>): World {
    if events == [] then w else After(RunFrom(w, events[..|events| - 1]), events[|events| - 1])
  }

  /** The stored rows after a restart: a new process runs on what the old one stored. */
  function Restarted(before: seq<Event>, after: seq<Event>): World {
    RunFrom(Start().(rows := RunOf(before).rows), after)
  }

  /** Older rows under a process's own ones. */
  function Over(w: World, base: map<Slot, Flush>): World {
    w.(rows := base + w.rows)
  }

  lemma StepOver(w: World, base: map<Slot, Flush>, o: Observation, now: int, ok: bool)
    ensures OneStep(Over(w, base), o, now, ok) == Over(OneStep(w, o, now, ok), base)
  {
    hide ObserveOne, HitsCap, Noted;
    var r := ObserveOne(w.acc, o, now);
    if r.1 != [] && ok {
      assert Upsert(base + w.rows, r.1[0]) == base + Upsert(w.rows, r.1[0]);
    }
  }

  lemma {:induction false} StepsOver(w: World, base: map<Slot, Flush>, obs: seq<Observation>, now: int, ok: bool)
    ensures AllSteps(Over(w, base), obs, now, ok) == Over(AllSteps(w, obs, now, ok), base)
  {
    if obs != [] {
      StepsOver(w, base, obs[..|obs| - 1], now, ok);
      StepOver(AllSteps(w, obs[..|obs| - 1], now, ok), base, obs[|obs| - 1], now, ok);
      hide OneStep;
    }
  }

  lemma SumsIgnoreRows(w: World, rows: map<Slot, Flush>)
    ensures ClosedSums(w.(rows := rows)) == ClosedSums(w)
  {
    var l, r := ClosedSums(w.(rows := rows)), ClosedSums(w);
    assert l.Keys == r.Keys;
  }

  lemma CloseRows(w: World, rows: map<Slot, Flush>, hour: int, ok: bool)
    ensures CloseHour(w.(rows := rows), hour, ok) ==
      CloseHour(w, hour, ok).(rows := if ok then rows + RolledRows(w.acc) else rows)
  {
    hide RolledRows, ClosedSums;
    SumsIgnoreRows(w, rows);
  }

  lemma JoinedRows(a: map<Slot, Flush>, b: map<Slot, Flush>, c: map<Slot, Flush>)
    ensures a + b + c == a + (b + c)
  {
  }

  lemma CloseOver(w: World, base: map<Slot, Flush>, hour: int, ok: bool)
    ensures CloseHour(Over(w, base), hour, ok) == Over(CloseHour(w, hour, ok), base)
  {
    CloseRows(w, base + w.rows, hour, ok);
    CloseRows(w, w.rows, hour, ok);
    JoinedRows(base, w.rows, RolledRows(w.acc));
    assert w.(rows := w.rows) == w;
    hide CloseHour, RolledRows;
  }

  lemma RoundOver(w: World, base: map<Slot, Flush>, now: nat, obs: seq<Observation>, ok: bool)
    ensures AfterRound(Over(w, base), now, obs, ok) == Over(AfterRound(w, now, obs, ok), base)
  {
    CloseOver(w, base, HourOf(now), ok);
    StepsOver(if HourOf(now) != w.acc.hour then CloseHour(w, HourOf(now), ok) else w, base, obs, now, ok);
    hide HourOf, CloseHour, AllSteps;
  }

  /** Deleting an inbound takes its rows away, the older ones too. */
  function Spared(base: map<Slot, Flush>, events: seq<Event>): map<Slot, Flush> {
    if events == [] then base
    else
      var kept, e := Spared(base, events[..|events| - 1]), events[|events| - 1];
      if e.Forget? then map s | s in kept && Elsewhere(s, e.inbound) :: kept[s] else kept
  }

  lemma SparedJoin(base: map<Slot, Flush>, rows: map<Slot, Flush>, inbound: int)
    ensures (map s | s in base + rows && Elsewhere(s, inbound) :: (base + rows)[s]) ==
      (map s | s in base && Elsewhere(s, inbound) :: base[s]) + map s | s in rows && Elsewhere(s, inbound) :: rows[s]
  {
  }

  lemma ForgetRows(w: World, rows: map<Slot, Flush>, inbound: int)
    ensures AfterForget(w.(rows := rows), inbound) ==
      AfterForget(w, inbound).(rows := map s | s in rows && Elsewhere(s, inbound) :: rows[s])
  {
    hide Elsewhere, Forgotten;
    var l, r := AfterForget(w.(rows := rows), inbound), AfterForget(w, inbound);
    assert l.seen == r.seen && l.blocked == r.blocked;
    assert l.emitted == r.emitted && l.stored == r.stored;
    assert l.closed == r.closed;
  }

  lemma ForgetOver(w: World, base: map<Slot, Flush>, inbound: int)
    ensures AfterForget(Over(w, base), inbound) ==
      Over(AfterForget(w, inbound), map s | s in base && Elsewhere(s, inbound) :: base[s])
  {
    ForgetRows(w, base + w.rows, inbound);
    ForgetRows(w, w.rows, inbound);
    SparedJoin(base, w.rows, inbound);
    assert w.(rows := w.rows) == w;
    hide AfterForget, Elsewhere;
  }

  /** A new process works on the old rows as on none, and its own rows cover them. */
  lemma {:induction false} RunOver(base: map<Slot, Flush>, events: seq<Event>)
    ensures RunFrom(Start().(rows := base), events) == Over(RunOf(events), Spared(base, events))
  {
    if events == [] {
      assert base + map[] == base;
    } else {
      var front, e := events[..|events| - 1], events[|events| - 1];
      RunOver(base, front);
      hide AfterRound, AfterForget, Over;
      match e
      case Round(now, obs, ok) => RoundOver(RunOf(front), Spared(base, front), now, obs, ok);
      case Forget(inbound) => ForgetOver(RunOf(front), Spared(base, front), inbound);
    }
  }

  lemma {:induction false} SparedSlot(base: map<Slot, Flush>, events: seq<Event>, s: Slot)
    requires forall e <- events :: e.Forget? ==> e.inbound != s.key.inbound
    ensures s in Spared(base, events) <==> s in base
    ensures s in base ==> Spared(base, events)[s] == base[s]
  {
    if events != [] {
      assert events[|events| - 1] in events;
      SparedSlot(base, events[..|events| - 1], s);
    }
  }

  // ----- when the hour's row survives

  function Sum0(): Sum {
    Sum(0, 0, 0)
  }

  function Both(a: Sum, b: Sum): Sum {
    Sum(a.seconds + b.seconds, a.up + b.up, a.down + b.down)
  }

  /** What was observed of a source in a closed hour. */
  function ClosedSum(w: World, s: Slot): Sum {
    if s in w.closed then w.closed[s].sum else Sum0()
  }

  /** The source has a row with these totals if they pass the threshold, and none otherwise. */
  predicate HasTotals(rows: map<Slot, Flush>, s: Slot, total: Sum) {
    if Met(total) then s in rows && Says(rows[s], total) else s !in rows
  }

  /** The cell was written since it last grew. */
  predicate Saved(w: World, k: Key) {
    k in w.acc.cells &&
    var c := w.acc.cells[k]; c.flushedTime.Some? && c.flushedAt == c.seconds && c.flushedBytes == c.bytes
  }

  /** Neither cap was met for the source, and the last write of it succeeded. */
  predicate Undisturbed(w: World, s: Slot) {
    && (s in w.emitted ==> s in w.stored)
    && (s in w.closed ==> !w.closed[s].blocked)
    && (s.hour == w.acc.hour ==> s.key !in w.blocked)
  }

  /** Before the restart, the open hour's row says what the cell knows it says. */
  lemma OpenRow(w: World, k: Key)
    requires Inv(w) && Undisturbed(w, Slot(k, w.acc.hour))
    ensures var s, sum := Slot(k, w.acc.hour), SumOf(w.seen, k);
      && (s in w.rows ==> Met(sum) && SaysAtMost(w.rows[s], sum))
      && (Saved(w, k) <==> s in w.rows && Says(w.rows[s], sum))
  {
    var s := Slot(k, w.acc.hour);
    assert Faithful(w, k) && Written(w, k) && StoredRight(w, s);
    hide Inv, Outdated;
  }

  /** After the hour is over, the new process's row says what that process observed. */
  lemma ClosedRow(w: World, s: Slot)
    requires Inv(w) && s.hour < w.acc.hour && Undisturbed(w, s)
    ensures s in w.rows <==> Met(ClosedSum(w, s))
    ensures s in w.rows ==> Says(w.rows[s], ClosedSum(w, s))
  {
    assert ClosedRight(w, s) && StoredRight(w, s);
    hide Inv, Outdated;
  }

  /**
   A restart in the middle of an hour, exactly: the source's stored row has the hour's totals afterwards if and only if
   they do not pass the threshold at all, or nothing was observed before the restart, or nothing after it and the cell
   had been written since it last grew. In particular what passes the threshold after the restart covers what was
   stored before.
   */
  lemma RestartExact(before: seq<Event>, after: seq<Event>, s: Slot)
    requires ClockRuns(before) && ClockRuns(after)
    requires RunOf(before).acc.hour == s.hour < RunOf(after).acc.hour
    requires Undisturbed(RunOf(before), s) && Undisturbed(RunOf(after), s)
    requires forall e <- after :: e.Forget? ==> e.inbound != s.key.inbound
    ensures var old1, new1 := SumOf(RunOf(before).seen, s.key), ClosedSum(RunOf(after), s);
      HasTotals(Restarted(before, after).rows, s, Both(old1, new1)) <==>
        || !Met(Both(old1, new1))
        || (if Met(new1) then old1 == Sum0() else new1 == Sum0() && Saved(RunOf(before), s.key))
  {
    var w1, w2 := RunOf(before), RunOf(after);
    RunsKeepInv(before);
    RunsKeepInv(after);
    RunOver(w1.rows, after);
    SparedSlot(w1.rows, after, s);
    OpenRow(w1, s.key);
    ClosedRow(w2, s);
    hide RunOf, RunFrom, Inv, ClockRuns, Undisturbed, Spared, ClosedSum, Saved, SumOf, Met, Says, SaysAtMost, HasTotals;
    var rows := Restarted(before, after).rows;
    TwoRows(w1.rows, w2.rows, rows, s, SumOf(w1.seen, s.key), ClosedSum(w2, s), Saved(w1, s.key));
  }

  /** An old row under a new one. */
  lemma TwoRows(oldRows: map<Slot, Flush>, newRows: map<Slot, Flush>, rows: map<Slot, Flush>, s: Slot, old1: Sum, new1: Sum, saved: bool)
    requires s in rows <==> s in oldRows || s in newRows
    requires s in rows ==> rows[s] == if s in newRows then newRows[s] else oldRows[s]
    requires s in oldRows ==> Met(old1) && SaysAtMost(oldRows[s], old1)
    requires saved <==> s in oldRows && Says(oldRows[s], old1)
    requires s in newRows <==> Met(new1)
    requires s in newRows ==> Says(newRows[s], new1)
    ensures HasTotals(rows, s, Both(old1, new1)) <==>
      || !Met(Both(old1, new1))
      || (if Met(new1) then old1 == Sum0() else new1 == Sum0() && saved)
  {
  }

  // ----- an example

  predicate OpenAt(w: World, s: Slot, sum: Sum) {
    && w.acc.hour == s.hour && s.key in w.seen && w.seen[s.key] == sum
    && s.key !in w.blocked && s !in w.closed && s in w.emitted && s in w.stored
  }

  predicate ClosedAt(w: World, s: Slot, sum: Sum, hour: int) {
    w.acc.hour == hour && s in w.closed && w.closed[s] == Closed(sum, false) && s in w.emitted && s in w.stored && w.blocked == {}
  }

  lemma OpenOnce(o: Observation, now: nat)
    requires o.bytesOnly && o.up + o.down >= MIN_ACTIVE_BYTES
    ensures var w := OneStep(Start().(acc := NewHour(HourOf(now))), o, now, true);
      OpenAt(w, Slot(o.key, HourOf(now)), Sum(0, o.up, o.down)) && RolledRows(w.acc) == map[]
  {
    WrittenAtOnce(o, now);
    hide HourOf, ObserveOne, HitsCap, RollDue;
  }

  lemma ClosesAt(w: World, s: Slot, sum: Sum, hour: int)
    requires OpenAt(w, s, sum) && RolledRows(w.acc) == map[]
    ensures ClosedAt(CloseHour(w, hour, true), s, sum, hour)
  {
    hide RolledRows;
    assert s in ClosedSums(w);
  }

  /** A process that sees one source for one round of an hour of its own, and stores its row. */
  lemma OneRound(o: Observation, now: nat, later: nat)
    requires o.bytesOnly && o.up + o.down >= MIN_ACTIVE_BYTES && 0 < HourOf(now) < HourOf(later)
    ensures OpenAt(RunOf([Round(now, [o], true)]), Slot(o.key, HourOf(now)), Sum(0, o.up, o.down))
    ensures ClosedAt(RunOf([Round(now, [o], true), Round(later, [], true)]), Slot(o.key, HourOf(now)), Sum(0, o.up, o.down), HourOf(later))
  {
    hide HourOf, OneStep, RunOf, OpenAt, ClosedAt, RolledRows;
    FirstRound(o, now, true);
    OpenOnce(o, now);
    var w := OneStep(Start().(acc := NewHour(HourOf(now))), o, now, true);
    ClosesAt(w, Slot(o.key, HourOf(now)), Sum(0, o.up, o.down), HourOf(later));
    SecondRound(Round(now, [o], true), w, later);
  }

  /** The clock runs in such a process. */
  lemma ClockAfter(first: Event, second: Event)
    requires first.Round? && second.Round?
    requires 0 <= HourOf(first.now) && RunOf([first]).acc.hour <= HourOf(second.now)
    ensures ClockRuns([first, second]) && ClockRuns([first])
  {
    hide HourOf, AfterRound;
    assert [first, second][..1] == [first] && [first, second][..0] == [] && [first][..0] == [];
    assert RunOf([]) == Start();
  }

  /**
   So a restart does cost the hour what was stored before it: a source with a megabyte before and one after has a row
   of one megabyte.
   */
  lemma RestartForgets(o: Observation, first: nat, second: nat, later: nat)
    requires o.bytesOnly && o.up + o.down >= MIN_ACTIVE_BYTES && 0 < HourOf(first) == HourOf(second) < HourOf(later)
    ensures var before, after := [Round(first, [o], true)], [Round(second, [o], true), Round(later, [], true)];
      var s, sum := Slot(o.key, HourOf(first)), Sum(0, o.up, o.down);
      ClockRuns(before) && ClockRuns(after) && !HasTotals(Restarted(before, after).rows, s, Both(sum, sum))
  {
    var a, b, c := Round(first, [o], true), Round(second, [o], true), Round(later, [], true);
    hide RunOf, ClockRuns, Restarted, HasTotals, OpenAt, ClosedAt, HourOf;
    OneRound(o, first, later);
    OneRound(o, second, later);
    OpenHour(RunOf([a]), Slot(o.key, HourOf(first)), Sum(0, o.up, o.down));
    OpenHour(RunOf([b]), Slot(o.key, HourOf(first)), Sum(0, o.up, o.down));
    ClockAfter(a, c);
    ClockAfter(b, c);
    UseOnBothSides([a], [b, c], Slot(o.key, HourOf(first)), Sum(0, o.up, o.down), HourOf(later));
  }

  lemma OpenHour(w: World, s: Slot, sum: Sum)
    requires OpenAt(w, s, sum)
    ensures w.acc.hour == s.hour
  {
  }

  lemma UseOnBothSides(before: seq<Event>, after: seq<Event>, s: Slot, sum: Sum, hour: int)
    requires ClockRuns(before) && ClockRuns(after) && Met(sum) && s.hour < hour
    requires OpenAt(RunOf(before), s, sum) && ClosedAt(RunOf(after), s, sum, hour)
    requires forall e <- after :: e.Round?
    ensures !HasTotals(Restarted(before, after).rows, s, Both(sum, sum))
  {
    hide ClockRuns, RunOf, Restarted, HasTotals, Saved;
    RestartExact(before, after, s);
  }
}
