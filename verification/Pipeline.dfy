/**
 From the kernel's counters to the hourly rows: rounds of sampling hand the drained bytes of an enabled inbound to the
 hourly accounting, and every byte that was counted is found again in one hour's sum.
 */
module Pipeline {
  import opened Collections
  import Online
  import Conservation
  import Sharing
  import SharingSample
  import SharingExact

  /** The tracker with its history, and the hourly accounting with what is stored. */
  datatype Joint = Joint(net: Conservation.Run, use: SharingExact.World)

  /** The network goes on, or a round of sampling drains the tracker; its write to the database may fail. */
  datatype Tick =
    | Net(event: Conservation.Event)
    | Round(now: nat, inbounds: seq<SharingSample.Inbound>, view: SharingSample.View, obs: seq<Sharing.Observation>, ok: bool)

  function Step(j: Joint, t: Tick): Joint {
    match t
    case Net(e) => j.(net := Conservation.Step(j.net, e))
    case Round(now, _, _, obs, ok) =>
      Joint(Conservation.Step(j.net, Conservation.Drain), SharingExact.AfterRound(j.use, now, obs, ok))
  }

  function RunOf(ticks: seq<Tick>): Joint {
    if ticks == [] then Joint(Conservation.Start(), SharingExact.Start())
    else Step(RunOf(ticks[..|ticks| - 1]), ticks[|ticks| - 1])
  }

  /** What a round of sampling makes of the drained bytes, as it is collected. */
  ghost predicate Collected(obs: seq<Sharing.Observation>, drained: map<Online.Key, Online.Bytes>,
                            inbounds: seq<SharingSample.Inbound>, view: SharingSample.View)
  {
    && SharingSample.DistinctKeys(obs)
    && (forall o <- obs :: exists x <- inbounds :: x.enable && SharingSample.Matches(o, x, drained, view))
    && (forall x <- inbounds :: x.enable ==> SharingSample.Complete(obs, x, drained, view))
  }

  /** One inbound is enabled in every round, under its id and its port. */
  ghost predicate Legal(j: Joint, t: Tick, x: SharingSample.Inbound) {
    match t
    case Net(e) => !e.Drain? && Conservation.Legal(j.net.h, e)
    case Round(now, inbounds, view, obs, _) =>
      && Sharing.HourOf(now) >= j.use.acc.hour
      && x in inbounds && x.enable && (forall y <- inbounds :: y.id == x.id ==> y == x)
      && Collected(obs, j.net.t.pending, inbounds, view)
  }

  ghost predicate LegalRun(ticks: seq<Tick>, x: SharingSample.Inbound) {
    forall i :: 0 <= i < |ticks| ==> Legal(RunOf(ticks[..i]), ticks[i], x)
  }

  // ----- what the hours hold

  function Part(s: SharingExact.Sum, up: bool): nat {
    if up then s.up else s.down
  }

  /** The sums of a source over the closed hours before one. */
  function HoursBefore(closed: map<SharingExact.Slot, SharingExact.Closed>, key: Sharing.Key, hour: nat, up: bool): nat {
    if hour == 0 then 0
    else
      var s := SharingExact.Slot(key, hour - 1);
      HoursBefore(closed, key, hour - 1, up) + if s in closed then Part(closed[s].sum, up) else 0
  }

  /** All that was observed of a source, in the closed hours and in the open one. */
  function Observed(w: SharingExact.World, key: Sharing.Key, up: bool): nat
    requires w.acc.hour >= 0
  {
    HoursBefore(w.closed, key, w.acc.hour, up) + Part(SharingExact.SumOf(w.seen, key), up)
  }

  lemma {:induction false} SameHours(c: map<SharingExact.Slot, SharingExact.Closed>, d: map<SharingExact.Slot, SharingExact.Closed>,
                                     key: Sharing.Key, hour: nat, up: bool)
    requires forall s: SharingExact.Slot :: s.hour < hour ==> (s in c <==> s in d) && (s in c ==> c[s] == d[s])
    ensures HoursBefore(c, key, hour, up) == HoursBefore(d, key, hour, up)
  {
    if hour > 0 {
      SameHours(c, d, key, hour - 1, up);
    }
  }

  lemma {:induction false} EmptyHours(c: map<SharingExact.Slot, SharingExact.Closed>, key: Sharing.Key, lo: nat, hi: nat, up: bool)
    requires lo <= hi && forall s <- c :: s.hour < lo
    ensures HoursBefore(c, key, hi, up) == HoursBefore(c, key, lo, up)
    decreases hi
  {
    if lo < hi {
      EmptyHours(c, key, lo, hi - 1, up);
    }
  }

  lemma ClosingHour(w: SharingExact.World, hour: nat, ok: bool, key: Sharing.Key)
    requires SharingExact.HoursPast(w)
    ensures var w', s := SharingExact.CloseHour(w, hour, ok), SharingExact.Slot(key, w.acc.hour);
      && w'.acc.hour == hour && w'.seen == map[]
      && (forall r: SharingExact.Slot :: r.hour != w.acc.hour ==> (r in w'.closed <==> r in w.closed) && (r in w.closed ==> w'.closed[r] == w.closed[r]))
      && (forall r <- w'.closed :: r.hour <= w.acc.hour)
      && (s in w'.closed <==> key in w.seen) && (key in w.seen ==> w'.closed[s].sum == w.seen[key])
  {
    var sums := SharingExact.ClosedSums(w);
    assert forall r <- sums :: r.hour == w.acc.hour;
    assert SharingExact.Slot(key, w.acc.hour) in sums <==> key in w.seen;
    hide SharingExact.RolledRows;
  }

  /** Closing the hour moves its sum from the open to the closed hours. */
  lemma CloseKeepsObserved(w: SharingExact.World, hour: nat, ok: bool, key: Sharing.Key, up: bool)
    requires SharingExact.HoursPast(w) && 0 <= w.acc.hour < hour
    ensures var w' := SharingExact.CloseHour(w, hour, ok);
      w'.acc.hour == hour && Observed(w', key, up) == Observed(w, key, up)
  {
    hide SharingExact.CloseHour, SharingExact.HoursPast, HoursBefore;
    ClosingHour(w, hour, ok, key);
    HoursClosed(w, SharingExact.CloseHour(w, hour, ok), hour, key, up);
  }

  lemma HoursClosed(w: SharingExact.World, w': SharingExact.World, hour: nat, key: Sharing.Key, up: bool)
    requires 0 <= w.acc.hour < hour && w'.acc.hour == hour && w'.seen == map[]
    requires forall r: SharingExact.Slot :: r.hour < w.acc.hour ==> (r in w'.closed <==> r in w.closed) && (r in w.closed ==> w'.closed[r] == w.closed[r])
    requires forall r <- w'.closed :: r.hour <= w.acc.hour
    requires var s := SharingExact.Slot(key, w.acc.hour);
      (s in w'.closed <==> key in w.seen) && (key in w.seen ==> w'.closed[s].sum == w.seen[key])
    ensures Observed(w', key, up) == Observed(w, key, up)
  {
    hide HoursBefore;
    var h: nat := w.acc.hour;
    SameHours(w'.closed, w.closed, key, h, up);
    EmptyHours(w'.closed, key, h + 1, hour, up);
    LastHour(w'.closed, key, h, up);
  }

  lemma LastHour(closed: map<SharingExact.Slot, SharingExact.Closed>, key: Sharing.Key, hour: nat, up: bool)
    ensures var s := SharingExact.Slot(key, hour);
      HoursBefore(closed, key, hour + 1, up) == HoursBefore(closed, key, hour, up) + if s in closed then Part(closed[s].sum, up) else 0
  {
  }

  /** The bytes a list of observations has for a source. */
  function BytesIn(obs: seq<Sharing.Observation>, key: Sharing.Key, up: bool): nat {
    if obs == [] then 0
    else
      var o := obs[|obs| - 1];
      BytesIn(obs[..|obs| - 1], key, up) + if o.key == key then (if up then o.up else o.down) else 0
  }

  lemma {:induction false} StepsNote(w: SharingExact.World, obs: seq<Sharing.Observation>, now: int, ok: bool, key: Sharing.Key, up: bool)
    ensures var w' := SharingExact.AllSteps(w, obs, now, ok);
      && w'.closed == w.closed
      && Part(SharingExact.SumOf(w'.seen, key), up) == Part(SharingExact.SumOf(w.seen, key), up) + BytesIn(obs, key, up)
  {
    if obs != [] {
      var front, o := obs[..|obs| - 1], obs[|obs| - 1];
      StepsNote(w, front, now, ok, key, up);
      StepNotes(SharingExact.AllSteps(w, front, now, ok), o, now, ok, key, up);
      hide SharingExact.OneStep;
    }
  }

  lemma StepNotes(w: SharingExact.World, o: Sharing.Observation, now: int, ok: bool, key: Sharing.Key, up: bool)
    ensures var w' := SharingExact.OneStep(w, o, now, ok);
      && w'.closed == w.closed
      && Part(SharingExact.SumOf(w'.seen, key), up) ==
           Part(SharingExact.SumOf(w.seen, key), up) + if o.key == key then (if up then o.up else o.down) else 0
  {
    SharingExact.StepParts(w, o, now, ok);
    hide Sharing.ObserveOne, SharingExact.HitsCap;
  }

  lemma {:induction false} NoBytes(obs: seq<Sharing.Observation>, key: Sharing.Key, up: bool)
    requires forall o <- obs :: o.key != key
    ensures BytesIn(obs, key, up) == 0
  {
    if obs != [] {
      assert obs[|obs| - 1] in obs;
      NoBytes(obs[..|obs| - 1], key, up);
    }
  }

  lemma {:induction false} OneObservation(obs: seq<Sharing.Observation>, o: Sharing.Observation, up: bool)
    requires SharingSample.DistinctKeys(obs) && o in obs
    ensures BytesIn(obs, o.key, up) == if up then o.up else o.down
  {
    var front, last := obs[..|obs| - 1], obs[|obs| - 1];
    if o == last {
      NoBytes(front, o.key, up);
    } else {
      assert o in front;
      OneObservation(front, o, up);
    }
  }

  /** A round observes of a source of the enabled inbound exactly what was drained for it. */
  lemma DrainedObserved(obs: seq<Sharing.Observation>, drained: map<Online.Key, Online.Bytes>, inbounds: seq<SharingSample.Inbound>,
                        view: SharingSample.View, x: SharingSample.Inbound, ip: Online.Address, up: bool)
    requires Collected(obs, drained, inbounds, view)
    requires x in inbounds && x.enable && forall y <- inbounds :: y.id == x.id ==> y == x
    ensures BytesIn(obs, Sharing.Key(x.id, ip), up) == Conservation.Amount(drained, Online.Key(x.port, ip), up)
  {
    var key := Sharing.Key(x.id, ip);
    if o :| o in obs && o.key == key {
      OneObservation(obs, o, up);
      var y :| y in inbounds && y.enable && SharingSample.Matches(o, y, drained, view);
    } else {
      NoBytes(obs, key, up);
      assert SharingSample.Complete(obs, x, drained, view);
      hide SharingSample.Matches;
      assert Online.Key(x.port, ip) !in drained;
    }
  }

  // ----- runs

  /** What was handed on for a source is what was observed of it. */
  ghost predicate Ledger(j: Joint, x: SharingSample.Inbound) {
    && j.use.acc.hour >= 0
    && forall ip, up :: Conservation.Amount(j.net.credited, Online.Key(x.port, ip), up) == Observed(j.use, Sharing.Key(x.id, ip), up)
  }

  ghost predicate Inv(j: Joint, x: SharingSample.Inbound) {
    Conservation.Inv(j.net.h, j.net.credited, j.net.t) && SharingExact.Inv(j.use) && Ledger(j, x)
  }

  lemma RoundKeepsLedger(j: Joint, t: Tick, x: SharingSample.Inbound)
    requires t.Round? && Legal(j, t, x) && Ledger(j, x) && SharingExact.Inv(j.use)
    ensures Ledger(Step(j, t), x)
  {
    var hour := Sharing.HourOf(t.now);
    var w := if hour != j.use.acc.hour then SharingExact.CloseHour(j.use, hour, t.ok) else j.use;
    HoursArePast(j.use);
    ClosingKeepsInv(j.use, hour, t.ok);
    SharingExact.StepsKeepInv(w, t.obs, t.now, t.ok);
    hide SharingExact.HoursPast, SharingExact.Inv, SharingExact.CloseHour, SharingExact.AllSteps, Collected, Sharing.HourOf;
    assert Step(j, t).use == SharingExact.AllSteps(w, t.obs, t.now, t.ok);
    assert Step(j, t).net.credited == Conservation.HandOn(j.net.credited, j.net.t.pending);
    forall ip, up
      ensures Conservation.Amount(Step(j, t).net.credited, Online.Key(x.port, ip), up) == Observed(Step(j, t).use, Sharing.Key(x.id, ip), up)
    {
      LedgerAt(j, t, x, w, ip, up);
    }
    hide Observed, Conservation.Amount, Step;
  }

  lemma HoursArePast(w: SharingExact.World)
    requires SharingExact.Inv(w)
    ensures SharingExact.HoursPast(w)
  {
  }

  lemma ClosingKeepsInv(w: SharingExact.World, hour: nat, ok: bool)
    requires SharingExact.Inv(w) && w.acc.hour <= hour
    ensures var r := if hour != w.acc.hour then SharingExact.CloseHour(w, hour, ok) else w;
      SharingExact.Inv(r) && r.acc.hour == hour
  {
    if hour != w.acc.hour {
      SharingExact.CloseKeepsInv(w, hour, ok);
    }
    hide SharingExact.Inv;
  }

  /** One source through a round: what is handed on for it is what the hour gains. */
  lemma LedgerAt(j: Joint, t: Tick, x: SharingSample.Inbound, w: SharingExact.World, ip: Online.Address, up: bool)
    requires t.Round? && Legal(j, t, x) && j.use.acc.hour >= 0 && SharingExact.HoursPast(j.use)
    requires w == if Sharing.HourOf(t.now) != j.use.acc.hour then SharingExact.CloseHour(j.use, Sharing.HourOf(t.now), t.ok) else j.use
    requires Conservation.Amount(j.net.credited, Online.Key(x.port, ip), up) == Observed(j.use, Sharing.Key(x.id, ip), up)
    requires SharingExact.AllSteps(w, t.obs, t.now, t.ok).acc.hour == w.acc.hour >= 0
    ensures Conservation.Amount(Conservation.HandOn(j.net.credited, j.net.t.pending), Online.Key(x.port, ip), up)
         == Observed(SharingExact.AllSteps(w, t.obs, t.now, t.ok), Sharing.Key(x.id, ip), up)
  {
    hide Sharing.HourOf, SharingExact.CloseHour, SharingExact.AllSteps, SharingExact.HoursPast, Conservation.HandOn,
         Conservation.Amount, HoursBefore, BytesIn, SharingExact.SumOf, Collected, Conservation.Legal;
    var key, hour := Sharing.Key(x.id, ip), Sharing.HourOf(t.now);
    if hour != j.use.acc.hour {
      CloseKeepsObserved(j.use, hour, t.ok, key, up);
    }
    StepsNote(w, t.obs, t.now, t.ok, key, up);
    DrainedObserved(t.obs, j.net.t.pending, t.inbounds, t.view, x, ip, up);
    Conservation.HandOnAmount(j.net.credited, j.net.t.pending, Online.Key(x.port, ip), up);
  }

  lemma StepKeepsInv(j: Joint, t: Tick, x: SharingSample.Inbound)
    requires Inv(j, x) && Legal(j, t, x)
    ensures Inv(Step(j, t), x)
  {
    match t
    case Net(e) =>
      Conservation.StepKeepsInv(j.net, e);
      hide Conservation.Inv, SharingExact.Inv, Conservation.AfterEvent, Online.AfterDump, Online.AfterClose, Observed, Conservation.Amount;
    case Round(now, inbounds, view, obs, ok) =>
      Conservation.StepKeepsInv(j.net, Conservation.Drain);
      SharingExact.RoundKeepsInv(j.use, now, obs, ok);
      RoundKeepsLedger(j, t, x);
      hide Conservation.Inv, SharingExact.Inv, Ledger, Conservation.Step, SharingExact.AfterRound;
  }

  lemma StartInv(x: SharingSample.Inbound)
    ensures Inv(RunOf([]), x)
  {
    Conservation.RunKeepsInv([]);
    SharingExact.StartInv();
    hide Conservation.Inv, SharingExact.Inv;
    assert RunOf([]) == Joint(Conservation.Start(), SharingExact.Start());
  }

  lemma LegalPrefix(ticks: seq<Tick>, x: SharingSample.Inbound)
    requires ticks != [] && LegalRun(ticks, x)
    ensures LegalRun(ticks[..|ticks| - 1], x) && Legal(RunOf(ticks[..|ticks| - 1]), ticks[|ticks| - 1], x)
  {
    hide Legal, RunOf;
    var front := ticks[..|ticks| - 1];
    forall i | 0 <= i < |front|
      ensures Legal(RunOf(front[..i]), front[i], x)
    {
      assert front[..i] == ticks[..i];
    }
  }

  lemma {:induction false} RunKeepsInv(ticks: seq<Tick>, x: SharingSample.Inbound)
    requires LegalRun(ticks, x)
    ensures Inv(RunOf(ticks), x)
  {
    if ticks == [] {
      StartInv(x);
    } else {
      LegalPrefix(ticks, x);
      hide Inv, Legal, LegalRun, Step;
      RunKeepsInv(ticks[..|ticks| - 1], x);
      StepKeepsInv(RunOf(ticks[..|ticks| - 1]), ticks[|ticks| - 1], x);
    }
  }

  /**
   Every byte in one hour: for every source of an inbound that stays enabled, the growth of its connections is what the
   hours observed, what is pending and what the full table refused. And once an hour is closed for a source that met no
   cap in it, its row was last written with exactly that hour's bytes, if they or its seconds pass the threshold, and it
   is stored so exactly if that write succeeded.
   */
  lemma EveryByteInOneHour(ticks: seq<Tick>, x: SharingSample.Inbound, ip: Online.Address, up: bool, hour: int)
    requires LegalRun(ticks, x)
    ensures RunOf(ticks).use.acc.hour >= 0
    ensures var j := RunOf(ticks); var n := Online.Key(x.port, ip);
      Conservation.Total(j.net.h.seen, n, up) ==
        Observed(j.use, Sharing.Key(x.id, ip), up) + Conservation.Amount(j.net.t.pending, n, up) + Conservation.Amount(j.net.t.lost, n, up)
    ensures var w := RunOf(ticks).use; var s := SharingExact.Slot(Sharing.Key(x.id, ip), hour);
      s in w.closed && !w.closed[s].blocked ==>
        && (s in w.emitted <==> SharingExact.Met(w.closed[s].sum))
        && (s in w.emitted ==> SharingExact.Says(w.emitted[s], w.closed[s].sum))
        && (s in w.emitted ==> (s in w.rows && w.rows[s] == w.emitted[s] <==> s in w.stored))
  {
    RunKeepsInv(ticks, x);
    var j, s := RunOf(ticks), SharingExact.Slot(Sharing.Key(x.id, ip), hour);
    hide RunOf, LegalRun, Observed, SharingExact.Met, SharingExact.Says, Conservation.Amount;
    assert SharingExact.ClosedRight(j.use, s) && SharingExact.StoredRight(j.use, s);
    assert Conservation.Balanced(j.net.h.seen, j.net.credited, j.net.t);
  }
}
