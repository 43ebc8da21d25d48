/** Over whole runs: what an hour's rows say when it is closed, and when the stored rows say it too. */
module SharingExact {
  import opened Collections
  import opened Sharing

  datatype Slot = Slot(key: Key, hour: int)

  /** What was observed of a source within one hour. */
  datatype Sum = Sum(seconds: nat, up: nat, down: nat)

  datatype Closed = Closed(sum: Sum, blocked: bool)

  /**
   The accumulator and the stored rows, with what an observer notes: the sums of the running hour, which sources met
   a cap in it, the last write attempted for each slot, for which slots that write succeeded, and the sums of the
   hours that are over.
   */
  datatype World = World(
    acc: Acc, seen: map<Key, Sum>, blocked: set<Key>, emitted: map<Slot, Flush>, rows: map<Slot, Flush>,
    stored: set<Slot>, closed: map<Slot, Closed>)

  function SlotOf(f: Flush): Slot {
    Slot(f.key, f.hour)
  }

  /** Writing over the row of a slot. */
  function Upsert(rows: map<Slot, Flush>, f: Flush): map<Slot, Flush> {
    rows[SlotOf(f) := f]
  }

  function Put(w: World, f: Flush, ok: bool): World {
    w.(emitted := Upsert(w.emitted, f), rows := if ok then Upsert(w.rows, f) else w.rows,
       stored := if ok then w.stored + {SlotOf(f)} else w.stored - {SlotOf(f)})
  }

  function SumOf(seen: map<Key, Sum>, key: Key): Sum {
    if key in seen then seen[key] else Sum(0, 0, 0)
  }

  function Noted(seen: map<Key, Sum>, o: Observation): map<Key, Sum> {
    var s := SumOf(seen, o.key);
    seen[o.key := Sum(s.seconds + if o.bytesOnly then 0 else SAMPLE_STEP, s.up + o.up, s.down + o.down)]
  }

  /** One of the two caps keeps an observation out of the rows. */
  predicate HitsCap(a: Acc, o: Observation) {
    o.key !in a.cells &&
    (if o.bytesOnly
     then !Promotes(a, o) && (HeldBytes(a, o.key) + o.up + o.down >= MIN_ACTIVE_BYTES || (!Stashes(a, o) && o.up + o.down != 0))
     else RowsFull(a, o.key.inbound))
  }

  function OneStep(w: World, o: Observation, now: int, ok: bool): World {
    var r := ObserveOne(w.acc, o, now);
    var w' := w.(acc := r.0, seen := Noted(w.seen, o), blocked := if HitsCap(w.acc, o) then w.blocked + {o.key} else w.blocked);
    if r.1 == [] then w' else Put(w', r.1[0], ok)
  }

  function AllSteps(w: World, obs: seq<Observation>, now: int, ok: bool): World {
    if obs == [] then w else OneStep(AllSteps(w, obs[..|obs| - 1], now, ok), obs[|obs| - 1], now, ok)
  }

  function RolledRows(a: Acc): map<Slot, Flush> {
    map k | k in a.cells && RollDue(a.cells[k]) :: Slot(k, a.hour) := FlushOf(k, a.cells[k], a.hour)
  }

  function ClosedSums(w: World): map<Slot, Closed> {
    map k | k in w.seen :: Slot(k, w.acc.hour) := Closed(w.seen[k], k in w.blocked)
  }

  /** The hour is over. */
  function CloseHour(w: World, hour: int, ok: bool): World {
    var rolled := RolledRows(w.acc);
    World(NewHour(hour), map[], {}, w.emitted + rolled, if ok then w.rows + rolled else w.rows,
          if ok then w.stored + rolled.Keys else w.stored - rolled.Keys, w.closed + ClosedSums(w))
  }

  function AfterRound(w: World, now: nat, obs: seq<Observation>, ok: bool): World {
    AllSteps(if HourOf(now) != w.acc.hour then CloseHour(w, HourOf(now), ok) else w, obs, now, ok)
  }

  predicate Elsewhere(s: Slot, inbound: int) {
    s.key.inbound != inbound
  }

  /** A deleted inbound takes its cells and its rows with it. */
  function AfterForget(w: World, inbound: int): World {
    World(Forgotten(w.acc, inbound),
          map k | k in w.seen && k.inbound != inbound :: w.seen[k],
          set k | k in w.blocked && k.inbound != inbound,
          map s | s in w.emitted && Elsewhere(s, inbound) :: w.emitted[s],
          map s | s in w.rows && Elsewhere(s, inbound) :: w.rows[s],
          set s | s in w.stored && Elsewhere(s, inbound),
          map s | s in w.closed && Elsewhere(s, inbound) :: w.closed[s])
  }

  // ----- what holds in every state

  /** Cells and set-aside bytes hold what was observed, all of it unless a cap was met. */
  ghost predicate Faithful(w: World, k: Key) {
    && !(k in w.acc.cells && k in w.acc.loose)
    && (k in w.acc.cells ==> CellFaithful(w.acc.cells[k], SumOf(w.seen, k), k in w.blocked))
    && (k in w.acc.loose ==> LooseFaithful(w.acc.loose[k], SumOf(w.seen, k), k in w.blocked))
    && (k !in w.acc.cells && k !in w.acc.loose && k !in w.blocked ==> SumOf(w.seen, k) == Sum(0, 0, 0))
  }

  predicate CellFaithful(c: Cell, s: Sum, blocked: bool) {
    && c.bytes == c.up + c.down && c.seconds <= s.seconds && c.up <= s.up && c.down <= s.down
    && (!blocked ==> c.seconds == s.seconds && c.up == s.up && c.down == s.down)
  }

  predicate LooseFaithful(l: Loose, s: Sum, blocked: bool) {
    && l.up <= s.up && l.down <= s.down
    && (!blocked ==> s == Sum(0, l.up, l.down) && l.up + l.down < MIN_ACTIVE_BYTES)
  }

  /** A cell knows what was last written of it. */
  ghost predicate Written(w: World, k: Key) {
    var s := Slot(k, w.acc.hour);
    && (k !in w.acc.cells ==> s !in w.emitted)
    && (k in w.acc.cells ==> if s in w.emitted then WrittenAs(w.acc.cells[k], w.emitted[s]) else Unwritten(w.acc.cells[k]))
  }

  predicate WrittenAs(c: Cell, f: Flush) {
    && Eligible(c) && c.flushedTime.Some? && c.flushedAt == f.seconds <= c.seconds
    && c.flushedBytes == f.bytes == f.up + f.down && f.up <= c.up && f.down <= c.down
  }

  predicate Unwritten(c: Cell) {
    c.flushedTime.None? && c.flushedAt == 0 && c.flushedBytes == 0
  }

  predicate SameTotals(f: Flush, g: Flush) {
    f.seconds == g.seconds && f.bytes == g.bytes
  }

  /** An earlier write says less than the last one. */
  predicate Outdated(f: Flush, last: Flush) {
    f.seconds <= last.seconds && f.bytes <= last.bytes && !SameTotals(f, last)
  }

  ghost predicate StoredRight(w: World, s: Slot) {
    && (s in w.stored ==> s in w.emitted && s in w.rows && w.rows[s] == w.emitted[s])
    && (s in w.rows && s !in w.stored ==> s in w.emitted && Outdated(w.rows[s], w.emitted[s]))
  }

  ghost predicate HoursPast(w: World) {
    && (forall s <- w.emitted :: s.hour <= w.acc.hour)
    && (forall s <- w.closed :: s.hour < w.acc.hour)
  }

  predicate Met(s: Sum) {
    s.seconds >= FLUSH_THRESHOLD || s.up + s.down >= MIN_ACTIVE_BYTES
  }

  predicate Says(f: Flush, s: Sum) {
    f.seconds == s.seconds && f.up == s.up && f.down == s.down && f.bytes == s.up + s.down
  }

  predicate SaysAtMost(f: Flush, s: Sum) {
    f.seconds <= s.seconds && f.up <= s.up && f.down <= s.down && f.bytes == f.up + f.down
  }

  /** The last write for a closed hour: exact for every source that met the threshold, none for the others. */
  ghost predicate ClosedRight(w: World, s: Slot) {
    && (s in w.closed && !w.closed[s].blocked ==>
          (s in w.emitted <==> Met(w.closed[s].sum)) && (s in w.emitted ==> Says(w.emitted[s], w.closed[s].sum)))
    && (s in w.closed && s in w.emitted ==> SaysAtMost(w.emitted[s], w.closed[s].sum))
    && (s in w.emitted && s.hour < w.acc.hour ==> s in w.closed)
  }

  ghost predicate Capped(a: Acc) {
    && (forall i :: |RowsOf(a.cells, i)| <= MAX_ROWS_PER_HOUR)
    && |a.loose| <= MAX_LOOSE_PER_HOUR
  }

  /** What was written, or is stored, of one inbound for one hour. */
  function SlotsOf(written: map<Slot, Flush>, hour: int, inbound: int): set<Slot> {
    set s | s in written && s.hour == hour && s.key.inbound == inbound
  }

  ghost predicate ClosedWithin(w: World) {
    forall h, i :: h != w.acc.hour ==> |SlotsOf(w.emitted, h, i)| <= MAX_ROWS_PER_HOUR
  }

  ghost predicate Inv(w: World) {
    && (forall k :: Faithful(w, k)) && (forall k :: Written(w, k))
    && (forall s :: StoredRight(w, s)) && (forall s :: ClosedRight(w, s))
    && HoursPast(w) && Capped(w.acc) && ClosedWithin(w)
  }

  // ----- one observation

  /** A cell made or found for an observation holds what was observed before it. */
  lemma PlacedCell(w: World, o: Observation)
    requires Faithful(w, o.key) && Place(w.acc, o).1
    ensures var a := Place(w.acc, o).0;
      && o.key !in a.loose && !HitsCap(w.acc, o)
      && CellFaithful(a.cells[o.key], SumOf(w.seen, o.key), o.key in w.blocked)
  {
    hide RowsFull, HasGeo;
  }

  /** An observation without a cell is set aside whole, unless it met a cap. */
  lemma UnplacedLoose(w: World, o: Observation)
    requires Faithful(w, o.key) && !Place(w.acc, o).1
    ensures var a := Place(w.acc, o).0;
      var s, b := SumOf(Noted(w.seen, o), o.key), o.key in w.blocked || HitsCap(w.acc, o);
      && o.key !in a.cells
      && (o.key in a.loose ==> LooseFaithful(a.loose[o.key], s, b))
      && (o.key !in a.loose && !b ==> s == Sum(0, 0, 0))
  {
    hide RowsFull, HasGeo, Promoted;
  }

  /** The observed source afterwards. */
  lemma CellAfter(w: World, o: Observation, now: int)
    requires Faithful(w, o.key)
    ensures var a := ObserveOne(w.acc, o, now).0;
      var s, b := SumOf(Noted(w.seen, o), o.key), o.key in w.blocked || HitsCap(w.acc, o);
      && !(o.key in a.cells && o.key in a.loose)
      && (o.key in a.cells ==> CellFaithful(a.cells[o.key], s, b))
      && (o.key in a.loose ==> LooseFaithful(a.loose[o.key], s, b))
      && (o.key !in a.cells && o.key !in a.loose && !b ==> s == Sum(0, 0, 0))
  {
    if Place(w.acc, o).1 {
      PlacedCell(w, o);
    } else {
      UnplacedLoose(w, o);
    }
    hide Place, HitsCap, HasGeo, Due, Faithful, LooseFaithful;
  }

  /**
   What is written lags little behind: after each observation of a source with a row, less than a minute of activity is
   unwritten, and bytes only for less than a minute since its last write.
   */
  lemma LagBounded(a: Acc, o: Observation, now: int)
    ensures var r := ObserveOne(a, o, now).0;
      o.key in r.cells && Eligible(r.cells[o.key]) ==>
        var c := r.cells[o.key];
        && c.seconds - c.flushedAt < 60
        && (c.bytes != c.flushedBytes ==> c.flushedTime.Some? && now - c.flushedTime.value < 60_000)
  {
    if !Place(a, o).1 {
      NotPlaced(a, o);
    }
    hide Place, HasGeo, Eligible;
  }

  /** A source's origin is that of its latest observation that has one, all four parts together, and is written with it. */
  lemma OriginFollows(a: Acc, o: Observation, now: int)
    requires o.key in a.cells
    ensures var (r, out) := ObserveOne(a, o, now);
      && o.key in r.cells
      && r.cells[o.key].meta == (if o.meta.country != "" || o.meta.province != "" then o.meta else a.cells[o.key].meta)
      && forall f <- out :: f.meta == r.cells[o.key].meta
  {
    hide Due;
  }

  lemma OthersSame(a: Acc, o: Observation, now: int, k: Key)
    requires k != o.key
    ensures var r := ObserveOne(a, o, now).0;
      && (k in r.cells <==> k in a.cells) && (k in a.cells ==> r.cells[k] == a.cells[k])
      && (k in r.loose <==> k in a.loose) && (k in a.loose ==> r.loose[k] == a.loose[k])
  {
    hide RowsFull, HasGeo, Due;
  }

  lemma HourSame(a: Acc, o: Observation, now: int)
    ensures var r := ObserveOne(a, o, now);
      r.0.hour == a.hour && |r.1| <= 1 && forall f <- r.1 :: f.key == o.key && f.hour == a.hour
  {
    hide RowsFull, HasGeo, Due;
  }

  lemma PlacedUnwritten(w: World, o: Observation)
    requires Written(w, o.key) && Place(w.acc, o).1
    ensures var c, s := Place(w.acc, o).0.cells[o.key], Slot(o.key, w.acc.hour);
      Place(w.acc, o).0.hour == w.acc.hour && if s in w.emitted then WrittenAs(c, w.emitted[s]) else Unwritten(c)
  {
    hide RowsFull, HasGeo;
  }

  /** A write says at least as much as the one before it, and more of something. */
  lemma WrittenAfter(w: World, o: Observation, now: int, ok: bool)
    requires Written(w, o.key) && Faithful(w, o.key)
    ensures Written(OneStep(w, o, now, ok), o.key)
    ensures var s := Slot(o.key, w.acc.hour);
      forall f <- ObserveOne(w.acc, o, now).1 :: SlotOf(f) == s && (s in w.emitted ==> Outdated(w.emitted[s], f))
  {
    var r := ObserveOne(w.acc, o, now);
    HourSame(w.acc, o, now);
    if Place(w.acc, o).1 {
      PlacedUnwritten(w, o);
      PlacedCell(w, o);
      hide Place, HitsCap, HasGeo, Faithful, LooseFaithful;
    } else {
      NotPlaced(w.acc, o);
      hide Place, HitsCap, HasGeo, Faithful, LooseFaithful;
    }
  }

  lemma NotPlaced(a: Acc, o: Observation)
    requires !Place(a, o).1
    ensures o.key !in Place(a, o).0.cells && o.key !in a.cells && Place(a, o).0.hour == a.hour
  {
    hide RowsFull, HasGeo, Promoted;
  }

  lemma StepKeepsFaithful(w: World, o: Observation, now: int, ok: bool)
    requires forall k :: Faithful(w, k)
    ensures forall k :: Faithful(OneStep(w, o, now, ok), k)
  {
    var w' := OneStep(w, o, now, ok);
    forall k
      ensures Faithful(w', k)
    {
      assert Faithful(w, k);
      if k == o.key {
        SameFaithful(w, o, now, ok);
      } else {
        OtherFaithful(w, o, now, ok, k);
      }
      hide OneStep, Faithful;
    }
  }

  lemma StepParts(w: World, o: Observation, now: int, ok: bool)
    ensures var w' := OneStep(w, o, now, ok);
      && w'.acc == ObserveOne(w.acc, o, now).0 && w'.seen == Noted(w.seen, o)
      && w'.blocked == (if HitsCap(w.acc, o) then w.blocked + {o.key} else w.blocked)
  {
    hide ObserveOne, HitsCap, Noted;
  }

  lemma SameFaithful(w: World, o: Observation, now: int, ok: bool)
    requires Faithful(w, o.key)
    ensures Faithful(OneStep(w, o, now, ok), o.key)
  {
    CellAfter(w, o, now);
    StepParts(w, o, now, ok);
    hide ObserveOne, HitsCap, CellFaithful, LooseFaithful, OneStep, Noted;
  }

  lemma OtherFaithful(w: World, o: Observation, now: int, ok: bool, k: Key)
    requires Faithful(w, k) && k != o.key
    ensures Faithful(OneStep(w, o, now, ok), k)
  {
    OthersSame(w.acc, o, now, k);
    StepParts(w, o, now, ok);
    assert SumOf(Noted(w.seen, o), k) == SumOf(w.seen, k);
    hide ObserveOne, HitsCap, CellFaithful, LooseFaithful, OneStep, Noted, SumOf;
  }

  lemma StepKeepsWritten(w: World, o: Observation, now: int, ok: bool)
    requires (forall k :: Written(w, k)) && Faithful(w, o.key)
    ensures forall k :: Written(OneStep(w, o, now, ok), k)
  {
    var w' := OneStep(w, o, now, ok);
    WrittenAfter(w, o, now, ok);
    HourSame(w.acc, o, now);
    forall k
      ensures Written(w', k)
    {
      assert Written(w, k);
      if k != o.key {
        OthersSame(w.acc, o, now, k);
        hide ObserveOne, HitsCap, WrittenAs, Unwritten, Faithful;
      }
    }
  }

  lemma PutKeepsStored(w: World, f: Flush, ok: bool)
    requires forall s :: StoredRight(w, s)
    requires SlotOf(f) in w.emitted ==> Outdated(w.emitted[SlotOf(f)], f)
    ensures forall s :: StoredRight(Put(w, f, ok), s)
  {
    forall s
      ensures StoredRight(Put(w, f, ok), s)
    {
      assert StoredRight(w, s);
    }
  }

  lemma StepKeepsStored(w: World, o: Observation, now: int, ok: bool)
    requires (forall s :: StoredRight(w, s)) && Written(w, o.key) && Faithful(w, o.key)
    ensures forall s :: StoredRight(OneStep(w, o, now, ok), s)
  {
    WrittenAfter(w, o, now, ok);
    var r := ObserveOne(w.acc, o, now);
    var w1 := w.(acc := r.0, seen := Noted(w.seen, o), blocked := if HitsCap(w.acc, o) then w.blocked + {o.key} else w.blocked);
    hide ObserveOne, HitsCap, Noted, Outdated, Written, Faithful;
    assert forall s :: StoredRight(w, s) ==> StoredRight(w1, s);
    if r.1 != [] {
      assert r.1[0] in r.1;
      PutKeepsStored(w1, r.1[0], ok);
    }
  }

  lemma StepKeepsClosed(w: World, o: Observation, now: int, ok: bool)
    requires (forall s :: ClosedRight(w, s)) && HoursPast(w)
    ensures (forall s :: ClosedRight(OneStep(w, o, now, ok), s)) && HoursPast(OneStep(w, o, now, ok))
  {
    var w' := OneStep(w, o, now, ok);
    HourSame(w.acc, o, now);
    var r := ObserveOne(w.acc, o, now);
    assert r.1 != [] ==> r.1[0] in r.1;
    hide ObserveOne, HitsCap, Noted, Says, SaysAtMost, Met;
    forall s
      ensures ClosedRight(w', s)
    {
      assert ClosedRight(w, s);
    }
  }

  // ----- the caps

  lemma AddLoose(loose: map<Key, Loose>, key: Key, l: Loose)
    ensures |loose[key := l]| == |loose| + if key in loose then 0 else 1
  {
    assert loose[key := l].Keys == loose.Keys + {key};
  }

  lemma DropLoose(loose: map<Key, Loose>, key: Key)
    ensures |loose - {key}| <= |loose|
  {
    assert (loose - {key}).Keys == loose.Keys - {key};
  }

  lemma WithCellKeepsCaps(a: Acc, key: Key, c: Cell)
    requires Capped(a) && key !in a.cells && !RowsFull(a, key.inbound)
    ensures Capped(WithCell(a, key, c))
  {
    DropLoose(a.loose, key);
    var more := a.cells[key := c];
    OneMoreRow(a.cells, key, c);
    forall i
      ensures |RowsOf(more, i)| <= MAX_ROWS_PER_HOUR
    {
      assert |RowsOf(a.cells, i)| <= MAX_ROWS_PER_HOUR;
    }
  }

  lemma StashedKeepsCaps(a: Acc, o: Observation)
    requires Capped(a) && Stashes(a, o)
    ensures Capped(Stashed(a, o))
  {
    hide HasGeo, RowsOf;
    AddLoose(a.loose, o.key, Stashed(a, o).loose[o.key]);
  }

  /** No inbound ever has more rows, and no more sources are set aside, than the caps allow. */
  lemma PlaceKeepsCaps(a: Acc, o: Observation)
    requires Capped(a)
    ensures Capped(Place(a, o).0)
  {
    hide HasGeo, StartCell, Capped, Stashes, Stashed, RowsOf, WithCell, RowsFull;
    var meta := if o.key in a.loose && !HasGeo(o.meta) then a.loose[o.key].meta else o.meta;
    if o.key !in a.cells {
      if o.bytesOnly {
        if Promotes(a, o) {
          WithCellKeepsCaps(a, o.key, StartCell(a, o.key, meta));
        } else if Stashes(a, o) {
          StashedKeepsCaps(a, o);
        }
      } else if RowsFull(a, o.key.inbound) {
        SameButWarned(a, Place(a, o).0.capped);
      } else {
        WithCellKeepsCaps(a, o.key, StartCell(a, o.key, o.meta));
      }
    }
  }

  lemma SameButWarned(a: Acc, capped: map<int, nat>)
    requires Capped(a)
    ensures Capped(a.(capped := capped))
  {
  }

  lemma StepKeepsCaps(a: Acc, o: Observation, now: int)
    requires Capped(a)
    ensures Capped(ObserveOne(a, o, now).0)
  {
    PlaceKeepsCaps(a, o);
    var p := Place(a, o);
    if p.1 {
      var c := Grow(p.0.cells[o.key], o);
      CellChangeKeepsCaps(p.0, o.key, c);
      CellChangeKeepsCaps(p.0, o.key, Flushed(c, now));
    }
    hide Place, Due, HasGeo, RowsOf, Grow, Flushed, Capped;
  }

  lemma CellChangeKeepsCaps(a: Acc, key: Key, c: Cell)
    requires Capped(a) && key in a.cells
    ensures Capped(a.(cells := a.cells[key := c]))
  {
    SameRows(a.cells, key, c);
    var changed := a.cells[key := c];
    forall i
      ensures |RowsOf(changed, i)| <= MAX_ROWS_PER_HOUR
    {
      assert RowsOf(changed, i) == RowsOf(a.cells, i);
    }
  }

  // ----- rows per hour

  lemma {:induction false} SlotKeys(slots: set<Slot>, hour: int, keys: set<Key>)
    requires forall s <- slots :: s.hour == hour && s.key in keys
    ensures |slots| <= |keys|
    decreases slots
  {
    if slots != {} {
      var s := Element(slots);
      SlotKeys(slots - {s}, hour, keys - {s.key});
    }
  }

  /** Only sources with a cell are written, so the cap on cells holds for the rows of the open hour. */
  lemma OpenWithin(w: World, inbound: int)
    requires (forall k :: Written(w, k)) && Capped(w.acc)
    ensures |SlotsOf(w.emitted + RolledRows(w.acc), w.acc.hour, inbound)| <= MAX_ROWS_PER_HOUR
    ensures |SlotsOf(w.emitted, w.acc.hour, inbound)| <= MAX_ROWS_PER_HOUR
  {
    var keys := RowsOf(w.acc.cells, inbound);
    assert |keys| <= MAX_ROWS_PER_HOUR;
    forall s | s in SlotsOf(w.emitted + RolledRows(w.acc), w.acc.hour, inbound)
      ensures s.key in keys
    {
      assert Written(w, s.key);
      hide WrittenAs, Unwritten, RollDue;
    }
    assert SlotsOf(w.emitted, w.acc.hour, inbound) <= SlotsOf(w.emitted + RolledRows(w.acc), w.acc.hour, inbound);
    hide SlotsOf, RowsOf;
    SlotKeys(SlotsOf(w.emitted + RolledRows(w.acc), w.acc.hour, inbound), w.acc.hour, keys);
    SubsetCard(SlotsOf(w.emitted, w.acc.hour, inbound), SlotsOf(w.emitted + RolledRows(w.acc), w.acc.hour, inbound));
  }

  lemma StepKeepsWithin(w: World, o: Observation, now: int, ok: bool)
    requires ClosedWithin(w)
    ensures ClosedWithin(OneStep(w, o, now, ok))
  {
    var w', r := OneStep(w, o, now, ok), ObserveOne(w.acc, o, now);
    HourSame(w.acc, o, now);
    assert r.1 != [] ==> r.1[0] in r.1;
    hide ObserveOne, HitsCap, Noted;
    forall h, i | h != w.acc.hour
      ensures |SlotsOf(w'.emitted, h, i)| <= MAX_ROWS_PER_HOUR
    {
      assert SlotsOf(w'.emitted, h, i) == SlotsOf(w.emitted, h, i);
    }
  }

  lemma CloseKeepsWithin(w: World, hour: int, ok: bool)
    requires (forall k :: Written(w, k)) && Capped(w.acc) && ClosedWithin(w)
    ensures ClosedWithin(CloseHour(w, hour, ok))
  {
    var w' := CloseHour(w, hour, ok);
    forall h, i
      ensures |SlotsOf(w'.emitted, h, i)| <= MAX_ROWS_PER_HOUR
    {
      OpenWithin(w, i);
      if h != w.acc.hour {
        assert SlotsOf(w'.emitted, h, i) == SlotsOf(w.emitted, h, i);
      }
      hide Written, Capped, RollDue;
    }
  }

  /** In every hour, closed or open, no more rows were written or are stored than the cap allows. */
  lemma RowsWithin(w: World, hour: int, inbound: int)
    requires Inv(w)
    ensures |SlotsOf(w.emitted, hour, inbound)| <= MAX_ROWS_PER_HOUR
    ensures |SlotsOf(w.rows, hour, inbound)| <= MAX_ROWS_PER_HOUR
  {
    OpenWithin(w, inbound);
    hide Written, Faithful, ClosedRight, Capped, HoursPast, Outdated;
    forall s | s in w.rows
      ensures s in w.emitted
    {
      assert StoredRight(w, s);
    }
    SubsetCard(SlotsOf(w.rows, hour, inbound), SlotsOf(w.emitted, hour, inbound));
  }

  lemma StepKeepsInv(w: World, o: Observation, now: int, ok: bool)
    requires Inv(w)
    ensures Inv(OneStep(w, o, now, ok)) && OneStep(w, o, now, ok).acc.hour == w.acc.hour
  {
    assert Faithful(w, o.key) && Written(w, o.key);
    StepKeepsFaithful(w, o, now, ok);
    StepKeepsWritten(w, o, now, ok);
    StepKeepsStored(w, o, now, ok);
    StepKeepsClosed(w, o, now, ok);
    StepKeepsCaps(w.acc, o, now);
    StepKeepsWithin(w, o, now, ok);
    HourSame(w.acc, o, now);
    hide ObserveOne, HitsCap, Faithful, Written, StoredRight, ClosedRight, HoursPast, Capped, ClosedWithin;
  }

  lemma {:induction false} StepsKeepInv(w: World, obs: seq<Observation>, now: int, ok: bool)
    requires Inv(w)
    ensures Inv(AllSteps(w, obs, now, ok)) && AllSteps(w, obs, now, ok).acc.hour == w.acc.hour
  {
    if obs != [] {
      StepsKeepInv(w, obs[..|obs| - 1], now, ok);
      hide Inv, OneStep;
      StepKeepsInv(AllSteps(w, obs[..|obs| - 1], now, ok), obs[|obs| - 1], now, ok);
    }
  }

  // ----- the end of an hour

  /** What is written of a source when its hour ends, or was before, are the totals of its cell, if it is eligible. */
  lemma LastWriteExact(w: World, k: Key)
    requires Faithful(w, k) && Written(w, k)
    ensures var s, e := Slot(k, w.acc.hour), w.emitted + RolledRows(w.acc);
      && (s in e <==> k in w.acc.cells && Eligible(w.acc.cells[k]))
      && (s in e ==> var c := w.acc.cells[k];
            e[s].seconds == c.seconds && e[s].up == c.up && e[s].down == c.down && e[s].bytes == c.bytes)
  {
    hide LooseFaithful;
    var s := Slot(k, w.acc.hour);
    assert s in RolledRows(w.acc) <==> k in w.acc.cells && RollDue(w.acc.cells[k]);
  }

  /** So the closed hour is right for every source. */
  lemma ClosesRight(w: World, hour: int, ok: bool, k: Key)
    requires Faithful(w, k) && Written(w, k) && w.acc.hour < hour && HoursPast(w) && ClosedRight(w, Slot(k, w.acc.hour))
    ensures ClosedRight(CloseHour(w, hour, ok), Slot(k, w.acc.hour))
  {
    LastWriteExact(w, k);
    var s := Slot(k, w.acc.hour);
    assert s in ClosedSums(w) <==> k in w.seen;
    hide RolledRows, Written;
  }

  lemma CloseKeepsStored(w: World, hour: int, ok: bool)
    requires (forall k :: Faithful(w, k)) && (forall k :: Written(w, k)) && forall s :: StoredRight(w, s)
    ensures forall s :: StoredRight(CloseHour(w, hour, ok), s)
  {
    var rolled := RolledRows(w.acc);
    forall s
      ensures StoredRight(CloseHour(w, hour, ok), s)
    {
      assert StoredRight(w, s) && Faithful(w, s.key) && Written(w, s.key);
      RolledGrows(w, s);
      hide RolledRows, Faithful, Written, Outdated, ClosedSums;
    }
  }

  /** The last write of an hour says more than the one before. */
  lemma RolledGrows(w: World, s: Slot)
    requires Faithful(w, s.key) && Written(w, s.key)
    ensures var rolled := RolledRows(w.acc); s in rolled && s in w.emitted ==> Outdated(w.emitted[s], rolled[s])
    ensures s in RolledRows(w.acc) ==> s.hour == w.acc.hour
  {
    hide LooseFaithful;
  }

  lemma CloseKeepsClosed(w: World, hour: int, ok: bool)
    requires (forall k :: Faithful(w, k)) && (forall k :: Written(w, k)) && (forall s :: ClosedRight(w, s))
    requires HoursPast(w) && w.acc.hour < hour
    ensures (forall s :: ClosedRight(CloseHour(w, hour, ok), s)) && HoursPast(CloseHour(w, hour, ok))
  {
    var w' := CloseHour(w, hour, ok);
    forall s
      ensures ClosedRight(w', s)
    {
      assert ClosedRight(w, s) && Faithful(w, s.key) && Written(w, s.key);
      hide CloseHour, ClosedRight, Faithful, Written, HoursPast;
      if s.hour == w.acc.hour {
        ClosesRight(w, hour, ok, s.key);
      } else {
        OtherHourSame(w, hour, ok, s);
      }
    }
    HoursStayPast(w, hour, ok);
    hide CloseHour, ClosedRight, Faithful, Written, HoursPast;
  }

  lemma HoursStayPast(w: World, hour: int, ok: bool)
    requires HoursPast(w) && w.acc.hour < hour
    ensures HoursPast(CloseHour(w, hour, ok))
  {
    assert forall s <- RolledRows(w.acc) :: s.hour == w.acc.hour;
    assert forall s <- ClosedSums(w) :: s.hour == w.acc.hour;
    hide RolledRows, ClosedSums;
  }

  lemma OtherHourSame(w: World, hour: int, ok: bool, s: Slot)
    requires s.hour != w.acc.hour && w.acc.hour < hour && ClosedRight(w, s) && HoursPast(w)
    ensures ClosedRight(CloseHour(w, hour, ok), s)
  {
    HourOfRolled(w, s);
    var rolled, sums, w' := RolledRows(w.acc), ClosedSums(w), CloseHour(w, hour, ok);
    hide RolledRows, ClosedSums, Says, SaysAtMost, Met;
    assert w'.emitted == w.emitted + rolled && w'.closed == w.closed + sums;
    hide CloseHour;
    assert s in w'.emitted <==> s in w.emitted;
    assert s in w'.closed <==> s in w.closed;
  }

  lemma HourOfRolled(w: World, s: Slot)
    requires s.hour != w.acc.hour
    ensures s !in RolledRows(w.acc) && s !in ClosedSums(w)
  {
  }

  lemma NewHourCapped(hour: int)
    ensures Capped(NewHour(hour))
  {
    var none: map<Key, Cell> := map[];
    forall i
      ensures |RowsOf(none, i)| == 0
    {
      assert RowsOf(none, i) == {};
    }
  }

  lemma CloseKeepsInv(w: World, hour: int, ok: bool)
    requires Inv(w) && w.acc.hour < hour
    ensures Inv(CloseHour(w, hour, ok))
  {
    var w' := CloseHour(w, hour, ok);
    CloseKeepsStored(w, hour, ok);
    CloseKeepsClosed(w, hour, ok);
    NewHourCapped(hour);
    CloseKeepsWithin(w, hour, ok);
    forall k
      ensures Faithful(w', k) && Written(w', k)
    {
      var s := Slot(k, hour);
      assert s !in RolledRows(w.acc) && s !in w.emitted;
    }
    hide Faithful, Written, StoredRight, ClosedRight, HoursPast, Capped, ClosedWithin;
  }

  // ----- a deleted inbound

  lemma ForgetKeepsCaps(a: Acc, inbound: int)
    requires Capped(a)
    ensures Capped(Forgotten(a, inbound))
  {
    var r := Forgotten(a, inbound);
    forall i
      ensures |RowsOf(r.cells, i)| <= MAX_ROWS_PER_HOUR
    {
      assert |RowsOf(a.cells, i)| <= MAX_ROWS_PER_HOUR;
      assert RowsOf(r.cells, i) == if i == inbound then {} else RowsOf(a.cells, i);
    }
    assert r.loose.Keys <= a.loose.Keys;
    SubsetCard(r.loose.Keys, a.loose.Keys);
  }

  lemma ForgetKeepsWithin(w: World, inbound: int)
    requires ClosedWithin(w)
    ensures ClosedWithin(AfterForget(w, inbound))
  {
    var w' := AfterForget(w, inbound);
    forall h, i | h != w.acc.hour
      ensures |SlotsOf(w'.emitted, h, i)| <= MAX_ROWS_PER_HOUR
    {
      SubsetCard(SlotsOf(w'.emitted, h, i), SlotsOf(w.emitted, h, i));
    }
  }

  lemma ForgetKeepsInv(w: World, inbound: int)
    requires Inv(w)
    ensures Inv(AfterForget(w, inbound))
  {
    var w' := AfterForget(w, inbound);
    ForgetKeepsCaps(w.acc, inbound);
    ForgetKeepsWithin(w, inbound);
    hide ClosedWithin;
    forall k
      ensures Faithful(w', k) && Written(w', k)
    {
      assert Faithful(w, k) && Written(w, k);
      hide CellFaithful, LooseFaithful, WrittenAs, Unwritten, StoredRight, ClosedRight, HoursPast, Capped;
    }
    forall s
      ensures StoredRight(w', s) && ClosedRight(w', s)
    {
      assert StoredRight(w, s) && ClosedRight(w, s);
      hide Faithful, Written, Outdated, Says, SaysAtMost, Met, HoursPast, Capped;
    }
    hide Faithful, Written, StoredRight, ClosedRight, Capped;
  }

  // ----- runs

  datatype Event = Round(now: nat, obs: seq<Observation>, ok: bool) | Forget(inbound: int)

  function Start(): World {
    World(NewHour(0), map[], {}, map[], map[], {}, map[])
  }

  function After(w: World, e: Event): World {
    match e
    case Round(now, obs, ok) => AfterRound(w, now, obs, ok)
    case Forget(inbound) => AfterForget(w, inbound)
  }

  function RunOf(events: seq<Event>): World {
    if events == [] then Start() else After(RunOf(events[..|events| - 1]), events[|events| - 1])
  }

  /** The clock never falls back into an earlier hour. */
  predicate ClockRuns(events: seq<Event>) {
    forall i :: 0 <= i < |events| && events[i].Round? ==> HourOf(events[i].now) >= RunOf(events[..i]).acc.hour
  }

  lemma ClockPrefix(events: seq<Event>)
    requires events != [] && ClockRuns(events)
    ensures ClockRuns(events[..|events| - 1])
    ensures events[|events| - 1].Round? ==> HourOf(events[|events| - 1].now) >= RunOf(events[..|events| - 1]).acc.hour
  {
    hide RunOf, HourOf;
    var front := events[..|events| - 1];
    forall i | 0 <= i < |front| && front[i].Round?
      ensures HourOf(front[i].now) >= RunOf(front[..i]).acc.hour
    {
      assert front[..i] == events[..i];
    }
  }

  lemma StartInv()
    ensures Inv(Start())
  {
    NewHourCapped(0);
    forall h, i
      ensures |SlotsOf(Start().emitted, h, i)| == 0
    {
      assert SlotsOf(Start().emitted, h, i) == {};
    }
    hide Capped;
  }

  lemma RoundKeepsInv(w: World, now: nat, obs: seq<Observation>, ok: bool)
    requires Inv(w) && HourOf(now) >= w.acc.hour
    ensures Inv(AfterRound(w, now, obs, ok))
  {
    hide Inv, HourOf, CloseHour, AllSteps;
    var h := HourOf(now);
    if h != w.acc.hour {
      CloseKeepsInv(w, h, ok);
      StepsKeepInv(CloseHour(w, h, ok), obs, now, ok);
    } else {
      StepsKeepInv(w, obs, now, ok);
    }
  }

  lemma {:induction false} RunsKeepInv(events: seq<Event>)
    requires ClockRuns(events)
    ensures Inv(RunOf(events))
  {
    if events == [] {
      StartInv();
    } else {
      var front, e := events[..|events| - 1], events[|events| - 1];
      ClockPrefix(events);
      hide ClockRuns, Inv, AfterRound, AfterForget, HourOf;
      RunsKeepInv(front);
      match e
      case Round(now, obs, ok) => RoundKeepsInv(RunOf(front), now, obs, ok);
      case Forget(inbound) => ForgetKeepsInv(RunOf(front), inbound);
    }
  }

  /**
   Hourly accounting is exact: once an hour is over, a source that met no cap in it was last written with exactly its
   observed seconds and bytes if it passed the threshold, and never written otherwise; any other source never with
   more than was observed; and for no hour were more than fifty rows of an inbound written, or are more stored.
   */
  lemma HourlyExact(events: seq<Event>, s: Slot, hour: int, inbound: int)
    requires ClockRuns(events)
    ensures var w := RunOf(events);
      && (s in w.closed && !w.closed[s].blocked ==> (s in w.emitted <==> Met(w.closed[s].sum)))
      && (s in w.closed && !w.closed[s].blocked && s in w.emitted ==> Says(w.emitted[s], w.closed[s].sum))
      && (s in w.closed && s in w.emitted ==> SaysAtMost(w.emitted[s], w.closed[s].sum))
      && |SlotsOf(w.emitted, hour, inbound)| <= MAX_ROWS_PER_HOUR
      && |SlotsOf(w.rows, hour, inbound)| <= MAX_ROWS_PER_HOUR
      && |RowsOf(w.acc.cells, inbound)| <= MAX_ROWS_PER_HOUR
  {
    RunsKeepInv(events);
    RowsWithin(RunOf(events), hour, inbound);
    assert ClosedRight(RunOf(events), s);
    hide RunOf, ClockRuns, Faithful, Written, StoredRight, HoursPast, ClosedWithin, SlotsOf, RowsOf, Met, Says, SaysAtMost;
  }

  /**
   The stored row is the last one written exactly when that write succeeded. A failed write is not tried again by
   itself: only further use in the same hour, or none at all before it, makes the row right.
   */
  lemma StoredIffWritten(events: seq<Event>, s: Slot)
    requires ClockRuns(events) && s in RunOf(events).emitted
    ensures var w := RunOf(events); (s in w.rows && w.rows[s] == w.emitted[s]) <==> s in w.stored
  {
    RunsKeepInv(events);
    assert StoredRight(RunOf(events), s);
  }

  /** One observation that is written at once, in an hour of its own. */
  lemma WrittenAtOnce(o: Observation, now: nat)
    requires o.bytesOnly && o.up + o.down >= MIN_ACTIVE_BYTES
    ensures var a, r := NewHour(HourOf(now)), ObserveOne(NewHour(HourOf(now)), o, now);
      && r.1 == [FlushOf(o.key, r.0.cells[o.key], a.hour)] && r.0.cells.Keys == {o.key} && r.0.hour == a.hour
      && !HitsCap(a, o) && !RollDue(r.0.cells[o.key])
  {
    var a := NewHour(HourOf(now));
    hide HourOf, HasGeo;
    assert RowsOf(a.cells, o.key.inbound) == {};
    assert Promotes(a, o);
  }

  /** Such a failed write stays missing: a source with a megabyte in one round, whose write fails, has no row after the hour. */
  lemma FailedWriteStaysLost(o: Observation, now: nat, later: nat)
    requires o.bytesOnly && o.up + o.down >= MIN_ACTIVE_BYTES && 0 < HourOf(now) < HourOf(later)
    ensures var w := RunOf([Round(now, [o], false), Round(later, [], true)]);
      var s := Slot(o.key, HourOf(now));
      s in w.closed && !w.closed[s].blocked && Met(w.closed[s].sum) && s in w.emitted && s !in w.rows
  {
    FirstRound(o, now, false);
    var w0 := Start().(acc := NewHour(HourOf(now)));
    LostAfterClose(w0, o, now, later);
    var first, second := Round(now, [o], false), Round(later, [], true);
    var w1 := OneStep(w0, o, now, false);
    hide HourOf, ObserveOne, HitsCap, Met, OneStep, CloseHour, RunOf;
    SecondRound(first, w1, later);
  }

  lemma FirstRound(o: Observation, now: nat, ok: bool)
    requires 0 < HourOf(now)
    ensures var w0 := Start().(acc := NewHour(HourOf(now)));
      RunOf([Round(now, [o], ok)]) == OneStep(w0, o, now, ok) && OneStep(w0, o, now, ok).acc.hour == HourOf(now)
  {
    var w0 := Start().(acc := NewHour(HourOf(now)));
    HourSame(w0.acc, o, now);
    EmptyHourCloses(HourOf(now), ok);
    OneObservation(w0, o, now, ok);
    hide HourOf, OneStep, CloseHour, AllSteps, ObserveOne;
    assert [Round(now, [o], ok)][..0] == [] && RunOf([]) == Start();
  }

  lemma EmptyHourCloses(hour: int, ok: bool)
    ensures CloseHour(Start(), hour, ok) == Start().(acc := NewHour(hour))
  {
    assert RolledRows(Start().acc) == map[] && ClosedSums(Start()) == map[];
  }

  lemma OneObservation(w: World, o: Observation, now: nat, ok: bool)
    ensures AllSteps(w, [o], now, ok) == OneStep(w, o, now, ok)
    ensures OneStep(w, o, now, ok).acc == ObserveOne(w.acc, o, now).0
  {
    StepParts(w, o, now, ok);
    hide OneStep;
    assert [o][..0] == [] && AllSteps(w, [], now, ok) == w;
  }

  lemma SecondRound(first: Event, w1: World, later: nat)
    requires RunOf([first]) == w1 && HourOf(later) != w1.acc.hour
    ensures RunOf([first, Round(later, [], true)]) == CloseHour(w1, HourOf(later), true)
  {
    var second := Round(later, [], true);
    assert [first, second][..1] == [first];
    hide HourOf, CloseHour;
  }

  lemma LostAfterClose(w: World, o: Observation, now: nat, later: nat)
    requires o.bytesOnly && o.up + o.down >= MIN_ACTIVE_BYTES && w == Start().(acc := NewHour(HourOf(now)))
    ensures var r, s := CloseHour(OneStep(w, o, now, false), HourOf(later), true), Slot(o.key, HourOf(now));
      s in r.closed && !r.closed[s].blocked && Met(r.closed[s].sum) && s in r.emitted && s !in r.rows
  {
    WrittenAtOnce(o, now);
    hide HourOf, ObserveOne, HitsCap, RollDue;
    var w1 := OneStep(w, o, now, false);
    assert RolledRows(w1.acc) == map[];
  }
}
