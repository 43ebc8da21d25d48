/**
 Byte accounting from kernel counters: periodic dumps, asynchronous close notifications, connections that go
 missing for a while, and the drain that hands the pending bytes on.
 */
module Online {
  import opened Collections

  type Cookie = int

  type Address = seq<int>

  /** Sizes and clocks of the tracker; times are nanoseconds. */
  const SECOND := 1_000_000_000
  const CLOSED_RETENTION := 60 * SECOND
  const GONE_RETENTION := 600 * SECOND
  const PENDING_MAX_KEYS := 4096

  datatype Key = Key(port: int, ip: Address)

  datatype Bytes = Bytes(up: nat, down: nat)

  /** One row of the kernel's connection table, or the final state in a close notification. */
  datatype Sample = Sample(cookie: Cookie, port: int, remoteIp: Address, hasBytes: bool, bytes: Bytes)

  datatype GoneConn = GoneConn(bytes: Bytes, at: int)

  /** The accounting fields. The bytes refused by the full pending table are added up in lost, which the program does not keep. */
  datatype Tracker = Tracker(
    lastSample: Option<int>, prev: map<Cookie, Bytes>, gone: map<Cookie, GoneConn>, closed: map<Cookie, int>,
    pending: map<Key, Bytes>, ports: set<int>, lost: map<Key, Bytes>)

  const ZERO := Bytes(0, 0)

  /** A v4-mapped v6 address folded to four bytes. */
  function Normalize(ip: Address): Address {
    if |ip| == 16 && (forall i :: 0 <= i < 10 ==> ip[i] == 0) && ip[10] == 255 && ip[11] == 255 then ip[12..] else ip
  }

  function KeyOf(c: Sample): Key {
    Key(c.port, Normalize(c.remoteIp))
  }

  function Delta(now: nat, prev: nat, seen: bool): nat {
    if !seen || now < prev then now else now - prev
  }

  function DeltaBytes(now: Bytes, prev: Option<Bytes>): Bytes {
    match prev
    case None => now
    case Some(p) => Bytes(Delta(now.up, p.up, true), Delta(now.down, p.down, true))
  }

  function Get(m: map<Key, Bytes>, key: Key): Bytes {
    if key in m then m[key] else ZERO
  }

  function Plus(a: Bytes, b: Bytes): Bytes {
    Bytes(a.up + b.up, a.down + b.down)
  }

  /** A full table only refuses keys it does not hold. */
  predicate Refused(pending: map<Key, Bytes>, key: Key) {
    key !in pending && |pending| >= PENDING_MAX_KEYS
  }

  function AddPending(t: Tracker, key: Key, b: Bytes): Tracker {
    if b == ZERO then t
    else if Refused(t.pending, key) then t.(lost := t.lost[key := Plus(Get(t.lost, key), b)])
    else t.(pending := t.pending[key := Plus(Get(t.pending, key), b)])
  }

  /** The counters a connection was last seen with, still present or missing for a while. */
  function Baseline(t: Tracker, cookie: Cookie): Option<Bytes> {
    if cookie in t.prev then Some(t.prev[cookie])
    else if cookie in t.gone then Some(t.gone[cookie].bytes)
    else None
  }

  predicate Counted(t: Tracker, ports: set<int>, c: Sample) {
    c.port in ports && Normalize(c.remoteIp) != [] && c.hasBytes && c.cookie !in t.closed
  }

  /** One connection of a dump: its counters enter the next baseline and its growth is credited. */
  function CreditSample(t: Tracker, ports: set<int>, c: Sample): Tracker {
    if Counted(t, ports, c) && t.lastSample.Some?
    then AddPending(t, KeyOf(c), DeltaBytes(c.bytes, Baseline(t, c.cookie)))
    else t
  }

  function CreditAll(t: Tracker, ports: set<int>, conns: seq<Sample>): Tracker {
    if conns == [] then t else CreditSample(CreditAll(t, ports, conns[..|conns| - 1]), ports, conns[|conns| - 1])
  }

  function CurrentOf(t: Tracker, ports: set<int>, conns: seq<Sample>): map<Cookie, Bytes> {
    if conns == [] then map[]
    else
      var front, c := CurrentOf(t, ports, conns[..|conns| - 1]), conns[|conns| - 1];
      if Counted(t, ports, c) then front[c.cookie := c.bytes] else front
  }

  /** A connection that was there last time and is not now starts to be missing now. */
  function NextGone(t: Tracker, cur: map<Cookie, Bytes>, now: int): map<Cookie, GoneConn> {
    var all := map c | c in t.gone.Keys + (t.prev.Keys - cur.Keys) ::
      if c in t.prev && c !in cur then GoneConn(t.prev[c], now) else t.gone[c];
    map c | c in all && c !in cur && now - all[c].at <= GONE_RETENTION :: all[c]
  }

  function NextClosed(closed: map<Cookie, int>, now: int): map<Cookie, int> {
    map c | c in closed && now - closed[c] <= CLOSED_RETENTION :: closed[c]
  }

  function AfterDump(t: Tracker, conns: seq<Sample>, ports: set<int>, now: int): Tracker {
    var cur := CurrentOf(t, ports, conns);
    CreditAll(t, ports, conns).(lastSample := Some(now), prev := cur, gone := NextGone(t, cur, now),
                                closed := NextClosed(t.closed, now), ports := ports)
  }

  predicate Noticed(t: Tracker, c: Sample) {
    t.lastSample.Some? && c.hasBytes && c.port in t.ports && Normalize(c.remoteIp) != [] && c.cookie !in t.closed
  }

  function AfterClose(t: Tracker, c: Sample, now: int): Tracker {
    if !Noticed(t, c) then t
    else
      AddPending(t, KeyOf(c), DeltaBytes(c.bytes, Baseline(t, c.cookie)))
        .(closed := t.closed[c.cookie := now], prev := t.prev - {c.cookie}, gone := t.gone - {c.cookie})
  }

  function Initial(): Tracker {
    Tracker(None, map[], map[], map[], map[], {}, map[])
  }

  // ----- the class the program runs

  class OnlineTracker {
    var lastSample: Option<int>
    var prev: map<Cookie, Bytes>
    var gone: map<Cookie, GoneConn>
    var closed: map<Cookie, int>
    var pending: map<Key, Bytes>
    var ports: set<int>
    ghost var lost: map<Key, Bytes>

    ghost function Contents(): Tracker
      reads this
    {
      Tracker(lastSample, prev, gone, closed, pending, ports, lost)
    }

    constructor ()
      ensures Contents() == Initial()
    {
      lastSample := None;
      prev, gone, closed, pending, ports := map[], map[], map[], map[], {};
      lost := map[];
    }

    method AddPendingLocked(key: Key, b: Bytes)
      modifies this`pending, this`lost
      ensures Contents() == AddPending(old(Contents()), key, b)
    {
      if b.up == 0 && b.down == 0 {
        return;
      }
      var p := if key in pending then pending[key] else Bytes(0, 0);
      if key !in pending && |pending| >= PENDING_MAX_KEYS {
        lost := lost[key := Plus(Get(lost, key), b)];
        return;
      }
      pending := pending[key := Bytes(p.up + b.up, p.down + b.down)];
    }

    method DrainPending() returns (out: map<Key, Bytes>)
      modifies this`pending
      ensures out == old(pending) && Contents() == old(Contents()).(pending := map[])
    {
      out := pending;
      pending := map[];
    }

    method RecordClosed(c: Sample, now: int)
      modifies this
      ensures Contents() == AfterClose(old(Contents()), c, now)
    {
      if lastSample.None? || !c.hasBytes {
        return;
      }
      if c.port !in ports {
        return;
      }
      var ip := Normalize(c.remoteIp);
      if |ip| == 0 {
        return;
      }
      if c.cookie in closed {
        return;
      }
      var base: Option<Bytes> := None;
      if c.cookie in prev {
        base := Some(prev[c.cookie]);
      } else if c.cookie in gone {
        base := Some(gone[c.cookie].bytes);
      }
      AddPendingLocked(Key(c.port, ip), DeltaBytes(c.bytes, base));
      closed := closed[c.cookie := now];
      prev := prev - {c.cookie};
      gone := gone - {c.cookie};
    }

    /** The loop over the dump: what is present now, with its growth credited. */
    method CreditSamples(conns: seq<Sample>, newPorts: set<int>) returns (cur: map<Cookie, Bytes>)
      modifies this`pending, this`lost
      ensures Contents() == CreditAll(old(Contents()), newPorts, conns)
      ensures cur == CurrentOf(old(Contents()), newPorts, conns)
    {
      ghost var before := Contents();
      cur := map[];
      for i := 0 to |conns|
        invariant Contents() == CreditAll(before, newPorts, conns[..i])
        invariant cur == CurrentOf(before, newPorts, conns[..i])
      {
        hide AddPending;
        var c := conns[i];
        assert conns[..i + 1][..i] == conns[..i];
        SamplesKeepBaselines(before, newPorts, conns[..i]);
        if c.port !in newPorts {
          continue;
        }
        var ip := Normalize(c.remoteIp);
        if |ip| == 0 {
          continue;
        }
        if !c.hasBytes {
          continue;
        }
        if c.cookie in closed {
          continue;
        }
        cur := cur[c.cookie := c.bytes];
        if lastSample.None? {
          continue;
        }
        var base: Option<Bytes> := None;
        if c.cookie in prev {
          base := Some(prev[c.cookie]);
        } else if c.cookie in gone {
          base := Some(gone[c.cookie].bytes);
        }
        AddPendingLocked(Key(c.port, ip), DeltaBytes(c.bytes, base));
      }
      assert conns[..|conns|] == conns;
    }

    /** Closes are forgotten after a while. */
    method ForgetCloses(now: int)
      modifies this`closed
      ensures closed == NextClosed(old(closed), now)
    {
      closed := map c | c in closed && now - closed[c] <= CLOSED_RETENTION :: closed[c];
    }

    /** Connections missing from a dump keep their baseline for a while. */
    method KeepMissing(cur: map<Cookie, Bytes>, now: int)
      modifies this`gone
      ensures gone == NextGone(old(Contents()), cur, now)
    {
      gone := map c | c in gone.Keys + (prev.Keys - cur.Keys) ::
        if c in prev && c !in cur then GoneConn(prev[c], now) else gone[c];
      gone := map c | c in gone && c !in cur && now - gone[c].at <= GONE_RETENTION :: gone[c];
    }

    method Update(conns: seq<Sample>, newPorts: set<int>, now: int)
      modifies this
      ensures Contents() == AfterDump(old(Contents()), conns, newPorts, now)
    {
      hide CreditAll, CurrentOf, NextGone, NextClosed;
      SamplesKeepBaselines(Contents(), newPorts, conns);
      ghost var before := Contents();
      var cur := CreditSamples(conns, newPorts);
      ForgetCloses(now);
      GoneOf(before, Contents(), cur, now);
      KeepMissing(cur, now);
      prev := cur;
      ports := newPorts;
      lastSample := Some(now);
    }
  }

  /** What is missing depends on the baselines only. */
  lemma GoneOf(t: Tracker, u: Tracker, cur: map<Cookie, Bytes>, now: int)
    requires u.prev == t.prev && u.gone == t.gone
    ensures NextGone(u, cur, now) == NextGone(t, cur, now)
  {
    var l, r := NextGone(u, cur, now), NextGone(t, cur, now);
    assert l.Keys == r.Keys;
  }

  /** Crediting a dump touches nothing but the pending bytes. */
  lemma {:induction false} SamplesKeepBaselines(t: Tracker, ports: set<int>, conns: seq<Sample>)
    ensures var r := CreditAll(t, ports, conns); r == t.(pending := r.pending, lost := r.lost)
  {
    if conns != [] {
      SamplesKeepBaselines(t, ports, conns[..|conns| - 1]);
    }
  }

  // ----- who a source is

  /** The form in which the kernel gives an IPv4 address on a dual-stack socket. */
  function Mapped(v4: Address): Address {
    [0, 0, 0, 0, 0, 0, 0, 0, 0, 0, 255, 255] + v4
  }

  /** Two forms of one address: the same bytes, or an IPv4 address and its mapped form. */
  predicate SameAddress(a: Address, b: Address) {
    a == b || (|a| == 4 && b == Mapped(a)) || (|b| == 4 && a == Mapped(b))
  }

  lemma NormalizeMapped(a: Address)
    ensures |a| == 4 ==> Normalize(a) == a && Normalize(Mapped(a)) == a
    ensures Normalize(a) == a || (|Normalize(a)| == 4 && a == Mapped(Normalize(a)))
  {
    if |a| == 4 {
      assert Mapped(a)[12..] == a;
    }
    if Normalize(a) != a {
      assert a == Mapped(a[12..]);
    }
  }

  /** Connections count for one source exactly if they come to one port from one address, in whichever form it is given. */
  lemma KeyExactly(c: Sample, d: Sample)
    ensures KeyOf(c) == KeyOf(d) <==> c.port == d.port && SameAddress(c.remoteIp, d.remoteIp)
  {
    NormalizeMapped(c.remoteIp);
    NormalizeMapped(d.remoteIp);
    hide Normalize;
  }

  /** A counter that ran back counts in full, and never as a negative growth. */
  lemma GrowthExactly(now: Bytes, prev: Option<Bytes>)
    ensures var g := DeltaBytes(now, prev);
      if prev.Some? && prev.value.up <= now.up then g.up + prev.value.up == now.up else g.up == now.up
    ensures var g := DeltaBytes(now, prev);
      if prev.Some? && prev.value.down <= now.down then g.down + prev.value.down == now.down else g.down == now.down
  {
  }
}
