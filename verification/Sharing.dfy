/**
 Hourly use per source: active seconds and bytes gathered in memory, written once they pass a threshold, closed with
 the hour, under two caps.
 */
module Sharing {
  import opened Collections
  import Online

  const FLUSH_THRESHOLD := 60
  const MAX_ROWS_PER_HOUR := 50
  const MAX_LOOSE_PER_HOUR := 1024
  const MIN_ACTIVE_BYTES := 1024 * 1024
  const SAMPLE_STEP := 30
  const HOUR_MILLIS := 3_600_000

  datatype Key = Key(inbound: int, ip: Online.Address)

  datatype Meta = Meta(country: string, province: string, city: string, isp: string)

  predicate HasGeo(m: Meta) {
    m.country != "" || m.province != ""
  }

  datatype Cell = Cell(
    meta: Meta, seconds: nat, flushedAt: nat, bytes: nat, up: nat, down: nat, flushedBytes: nat, flushedTime: Option<int>)

  datatype Loose = Loose(meta: Meta, up: nat, down: nat)

  /** A source seen active in a round, or one that only has bytes. */
  datatype Observation = Observation(key: Key, meta: Meta, up: nat, down: nat, bytesOnly: bool)

  datatype Flush = Flush(key: Key, meta: Meta, hour: int, seconds: nat, bytes: nat, up: nat, down: nat)

  datatype Acc = Acc(hour: int, cells: map<Key, Cell>, loose: map<Key, Loose>, capped: map<int, nat>)

  /** Times are milliseconds. */
  function HourOf(now: nat): nat {
    now / HOUR_MILLIS
  }

  predicate Eligible(c: Cell) {
    c.seconds >= FLUSH_THRESHOLD || c.bytes >= MIN_ACTIVE_BYTES
  }

  predicate Due(c: Cell, now: int) {
    Eligible(c) &&
    (c.seconds - c.flushedAt >= FLUSH_THRESHOLD ||
     (c.bytes != c.flushedBytes && (c.flushedTime.None? || now - c.flushedTime.value >= FLUSH_THRESHOLD * 1000)))
  }

  function FlushOf(key: Key, c: Cell, hour: int): Flush {
    Flush(key, c.meta, hour, c.seconds, c.bytes, c.up, c.down)
  }

  /** The rows an inbound already takes this hour. */
  function RowsOf(cells: map<Key, Cell>, inbound: int): set<Key> {
    set k | k in cells && k.inbound == inbound
  }

  predicate RowsFull(a: Acc, inbound: int) {
    |RowsOf(a.cells, inbound)| >= MAX_ROWS_PER_HOUR
  }

  function HeldBytes(a: Acc, key: Key): nat {
    if key in a.loose then a.loose[key].up + a.loose[key].down else 0
  }

  /** A cell that takes over what was set aside. */
  function StartCell(a: Acc, key: Key, meta: Meta): Cell {
    if key in a.loose then Cell(meta, 0, 0, a.loose[key].up + a.loose[key].down, a.loose[key].up, a.loose[key].down, 0, None)
    else Cell(meta, 0, 0, 0, 0, 0, 0, None)
  }

  function WithCell(a: Acc, key: Key, c: Cell): Acc {
    a.(cells := a.cells[key := c], loose := a.loose - {key})
  }

  /** Enough bytes for a row, and a row is free. */
  predicate Promotes(a: Acc, o: Observation) {
    HeldBytes(a, o.key) + o.up + o.down >= MIN_ACTIVE_BYTES && !RowsFull(a, o.key.inbound)
  }

  function Promoted(a: Acc, o: Observation): Acc {
    WithCell(a, o.key, StartCell(a, o.key, if o.key in a.loose && !HasGeo(o.meta) then a.loose[o.key].meta else o.meta))
  }

  predicate Stashes(a: Acc, o: Observation) {
    o.key in a.loose || (o.up + o.down != 0 && |a.loose| < MAX_LOOSE_PER_HOUR)
  }

  function Stashed(a: Acc, o: Observation): Acc {
    var l := if o.key in a.loose then a.loose[o.key] else Loose(Meta("", "", "", ""), 0, 0);
    a.(loose := a.loose[o.key := Loose(if HasGeo(o.meta) then o.meta else l.meta, l.up + o.up, l.down + o.down)])
  }

  /** Bytes of a source without a cell are set aside until they pass the threshold and a row is free. */
  function StashLoose(a: Acc, o: Observation): (Acc, bool) {
    if Promotes(a, o) then (Promoted(a, o), true)
    else if Stashes(a, o) then (Stashed(a, o), false)
    else (a, false)
  }

  /** Finds or makes room for an observation; without room it is not counted in a cell. */
  function Place(a: Acc, o: Observation): (r: (Acc, bool))
    ensures r.1 ==> o.key in r.0.cells
  {
    if o.key in a.cells then (a, true)
    else if o.bytesOnly then StashLoose(a, o)
    else if RowsFull(a, o.key.inbound) then
      (a.(capped := a.capped[o.key.inbound := (if o.key.inbound in a.capped then a.capped[o.key.inbound] else 0) + 1]), false)
    else (WithCell(a, o.key, StartCell(a, o.key, o.meta)), true)
  }

  function Grow(c: Cell, o: Observation): Cell {
    c.(up := c.up + o.up, down := c.down + o.down, bytes := c.bytes + o.up + o.down,
       meta := if HasGeo(o.meta) then o.meta else c.meta, seconds := c.seconds + if o.bytesOnly then 0 else SAMPLE_STEP)
  }

  function Flushed(c: Cell, now: int): Cell {
    c.(flushedAt := c.seconds, flushedBytes := c.bytes, flushedTime := Some(now))
  }

  function ObserveOne(a: Acc, o: Observation, now: int): (Acc, seq<Flush>) {
    var p := Place(a, o);
    if !p.1 then (p.0, [])
    else
      var c := Grow(p.0.cells[o.key], o);
      if Due(c, now) then (p.0.(cells := p.0.cells[o.key := Flushed(c, now)]), [FlushOf(o.key, c, a.hour)])
      else (p.0.(cells := p.0.cells[o.key := c]), [])
  }

  function ObserveAll(a: Acc, obs: seq<Observation>, now: int): (Acc, seq<Flush>) {
    if obs == [] then (a, [])
    else
      var front := ObserveAll(a, obs[..|obs| - 1], now);
      var last := ObserveOne(front.0, obs[|obs| - 1], now);
      (last.0, front.1 + last.1)
  }

  /** At the end of an hour every eligible cell that grew since its last flush is written once more. */
  predicate RollDue(c: Cell) {
    Eligible(c) && (c.seconds > c.flushedAt || c.bytes != c.flushedBytes)
  }

  function NewHour(hour: int): Acc {
    Acc(hour, map[], map[], map[])
  }

  ghost predicate RolledOut(a: Acc, out: seq<Flush>) {
    && (forall f :: f in out <==> f.key in a.cells && RollDue(a.cells[f.key]) && f == FlushOf(f.key, a.cells[f.key], a.hour))
    && (forall i, j :: 0 <= i < j < |out| ==> out[i].key != out[j].key)
  }

  // ----- the accumulator

  class SharingAccumulator {
    var hour: int
    var cells: map<Key, Cell>
    var loose: map<Key, Loose>
    var cappedWarned: map<int, nat>

    ghost function Contents(): Acc
      reads this
    {
      Acc(hour, cells, loose, cappedWarned)
    }

    constructor ()
      ensures Contents() == NewHour(0)
    {
      hour, cells, loose, cappedWarned := 0, map[], map[], map[];
    }

    method Rollover(newHour: int) returns (out: seq<Flush>)
      modifies this
      ensures Contents() == NewHour(newHour)
      ensures RolledOut(old(Contents()), out)
    {
      out := [];
      var keys := cells.Keys;
      while keys != {}
        invariant keys <= cells.Keys && Contents() == old(Contents())
        invariant forall f :: f in out <==>
          f.key in cells && f.key !in keys && RollDue(cells[f.key]) && f == FlushOf(f.key, cells[f.key], hour)
        invariant forall i, j :: 0 <= i < j < |out| ==> out[i].key != out[j].key
        decreases |keys|
      {
        assert Element(keys) in keys;
        var key :| key in keys;
        if RollDue(cells[key]) {
          var f := FlushOf(key, cells[key], hour);
          forall i | 0 <= i < |out|
            ensures out[i].key != key
          {
            assert out[i] in out;
          }
          out := out + [f];
        }
        keys := keys - {key};
      }
      hour, cells, loose, cappedWarned := newHour, map[], map[], map[];
    }

    /** The rows in use per inbound, counted once per round. */
    method CountRows() returns (perInbound: map<int, nat>)
      ensures Counted(cells, perInbound)
    {
      perInbound := map[];
      var rest := cells.Keys;
      ghost var done: map<Key, Cell> := map[];
      while rest != {}
        invariant rest <= cells.Keys && done == cells - rest
        invariant Counted(done, perInbound)
        decreases |rest|
      {
        assert Element(rest) in rest;
        var key :| key in rest;
        CountedMore(done, key, cells[key], perInbound);
        perInbound := Bumped(perInbound, key.inbound);
        rest := rest - {key};
        hide Counted, Bumped;
        done := done[key := cells[key]];
        assert done == cells - rest;
      }
      assert cells - {} == cells;
    }

    method StashLooseLocked(o: Observation, counts: map<int, nat>) returns (made: bool, perInbound: map<int, nat>)
      requires o.key !in cells && Counted(cells, counts)
      modifies this`cells, this`loose
      ensures (Contents(), made) == StashLoose(old(Contents()), o) && Counted(cells, perInbound)
    {
      perInbound := counts;
      var a := Acc(hour, cells, loose, cappedWarned);
      var have := HeldBytes(a, o.key);
      var rows := if o.key.inbound in perInbound then perInbound[o.key.inbound] else 0;
      assert rows == |RowsOf(cells, o.key.inbound)|;
      if have + o.up + o.down >= MIN_ACTIVE_BYTES && rows < MAX_ROWS_PER_HOUR {
        assert Promotes(a, o);
        perInbound := Promote(a, o, counts);
        return true, perInbound;
      }
      assert !Promotes(a, o);
      hide Promotes, Promoted, Counted;
      if o.key !in loose {
        if o.up + o.down == 0 || |loose| >= MAX_LOOSE_PER_HOUR {
          return false, perInbound;
        }
      }
      var l := if o.key in loose then loose[o.key] else Loose(Meta("", "", "", ""), 0, 0);
      loose := loose[o.key := Loose(if HasGeo(o.meta) then o.meta else l.meta, l.up + o.up, l.down + o.down)];
      return false, perInbound;
    }

    method Promote(a: Acc, o: Observation, counts: map<int, nat>) returns (perInbound: map<int, nat>)
      requires a == Contents() && o.key !in cells && Counted(cells, counts)
      modifies this`cells, this`loose
      ensures Contents() == Promoted(a, o) && Counted(cells, perInbound)
    {
      hide HasGeo, StartCell;
      var meta := o.meta;
      if o.key in loose && !HasGeo(o.meta) {
        meta := loose[o.key].meta;
      }
      var cell := StartCell(a, o.key, meta);
      CountedMore(cells, o.key, cell, counts);
      hide Counted, Bumped;
      loose := loose - {o.key};
      cells := cells[o.key := cell];
      perInbound := Bumped(counts, o.key.inbound);
    }

    /** One observation of a round. */
    method ObserveOneLocked(o: Observation, now: int, counts: map<int, nat>) returns (flushes: seq<Flush>, perInbound: map<int, nat>)
      requires Counted(cells, counts)
      modifies this
      ensures (Contents(), flushes) == ObserveOne(old(Contents()), o, now) && Counted(cells, perInbound)
    {
      perInbound := counts;
      if o.key !in cells {
        if o.bytesOnly {
          hide RowsOf;
          var made;
          made, perInbound := StashLooseLocked(o, perInbound);
          if !made {
            return [], perInbound;
          }
        } else {
          var rows := if o.key.inbound in perInbound then perInbound[o.key.inbound] else 0;
          if rows >= MAX_ROWS_PER_HOUR {
            cappedWarned := Bumped(cappedWarned, o.key.inbound);
            return [], perInbound;
          }
          var cell := StartCell(Acc(hour, cells, loose, cappedWarned), o.key, o.meta);
          CountedMore(cells, o.key, cell, perInbound);
          hide RowsOf;
          loose := loose - {o.key};
          cells := cells[o.key := cell];
          perInbound := Bumped(perInbound, o.key.inbound);
        }
      }
      flushes := GrowCell(o, now);
    }

    method GrowCell(o: Observation, now: int) returns (flushes: seq<Flush>)
      requires o.key in cells
      modifies this`cells
      ensures var c := Grow(old(cells)[o.key], o);
        && cells == old(cells)[o.key := if Due(c, now) then Flushed(c, now) else c]
        && flushes == (if Due(c, now) then [FlushOf(o.key, c, hour)] else [])
      ensures forall i :: RowsOf(cells, i) == RowsOf(old(cells), i)
    {
      var cell := cells[o.key];
      cell := cell.(up := cell.up + o.up, down := cell.down + o.down, bytes := cell.bytes + (o.up + o.down));
      if HasGeo(o.meta) {
        cell := cell.(meta := o.meta);
      }
      if !o.bytesOnly {
        cell := cell.(seconds := cell.seconds + SAMPLE_STEP);
      }
      flushes := [];
      if Due(cell, now) {
        flushes := [FlushOf(o.key, cell, hour)];
        cell := cell.(flushedAt := cell.seconds, flushedBytes := cell.bytes, flushedTime := Some(now));
      }
      SameRows(cells, o.key, cell);
      cells := cells[o.key := cell];
    }

    /** One round: the hour is closed first when it has changed. */
    method Observe(now: nat, obs: seq<Observation>) returns (rolled: seq<Flush>, flushes: seq<Flush>)
      modifies this
      ensures var a := old(Contents()); var h := HourOf(now);
        && (if h != a.hour then RolledOut(a, rolled) else rolled == [])
        && (Contents(), flushes) == ObserveAll(if h != a.hour then NewHour(h) else a, obs, now)
    {
      var h := HourOf(now);
      rolled := [];
      if h != hour {
        rolled := Rollover(h);
      }
      ghost var start := Contents();
      var perInbound := CountRows();
      flushes := [];
      for i := 0 to |obs|
        invariant (Contents(), flushes) == ObserveAll(start, obs[..i], now) && Counted(cells, perInbound)
      {
        hide ObserveOne, Counted;
        assert obs[..i + 1][..i] == obs[..i];
        var more;
        more, perInbound := ObserveOneLocked(obs[i], now, perInbound);
        flushes := flushes + more;
      }
      assert obs[..|obs|] == obs;
    }

    /** Everything held in memory for an inbound is dropped. */
    method Forget(inboundId: int)
      modifies this
      ensures Contents() == Forgotten(old(Contents()), inboundId)
    {
      cells := map k | k in cells && k.inbound != inboundId :: cells[k];
      loose := map k | k in loose && k.inbound != inboundId :: loose[k];
    }
  }

  function Forgotten(a: Acc, inbound: int): Acc {
    a.(cells := map k | k in a.cells && k.inbound != inbound :: a.cells[k],
       loose := map k | k in a.loose && k.inbound != inbound :: a.loose[k])
  }

  function Bumped(counts: map<int, nat>, i: int): map<int, nat> {
    counts[i := (if i in counts then counts[i] else 0) + 1]
  }

  /** Counts as many rows per inbound as there are. */
  ghost predicate Counted(cells: map<Key, Cell>, perInbound: map<int, nat>) {
    forall i :: (if i in perInbound then perInbound[i] else 0) == |RowsOf(cells, i)|
  }

  lemma CountedMore(cells: map<Key, Cell>, key: Key, c: Cell, counts: map<int, nat>)
    requires key !in cells && Counted(cells, counts)
    ensures Counted(cells[key := c], Bumped(counts, key.inbound))
  {
    OneMoreRow(cells, key, c);
    hide RowsOf;
  }

  lemma OneMoreRow(cells: map<Key, Cell>, key: Key, c: Cell)
    requires key !in cells
    ensures forall i :: |RowsOf(cells[key := c], i)| == |RowsOf(cells, i)| + if i == key.inbound then 1 else 0
  {
    forall i
      ensures |RowsOf(cells[key := c], i)| == |RowsOf(cells, i)| + if i == key.inbound then 1 else 0
    {
      assert RowsOf(cells[key := c], i) == RowsOf(cells, i) + if i == key.inbound then {key} else {};
    }
  }

  lemma SameRows(cells: map<Key, Cell>, key: Key, c: Cell)
    requires key in cells
    ensures forall i :: RowsOf(cells[key := c], i) == RowsOf(cells, i)
  {
  }
}
