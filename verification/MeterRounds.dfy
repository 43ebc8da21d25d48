/** Rounds of the metering pool over time: capacity, cooldown, minimum hold and the swap margin. */
module MeterRounds {
  import opened Collections
  import opened MeterPool

  // ----- the pool by ranks

  /** Held ones before others, and within each part the better candidate first. */
  predicate Prior(a: Candidate, b: Candidate) {
    if a.mustKeep != b.mustKeep then a.mustKeep else Better(a, b)
  }

  function Ahead(rows: Rows, x: Input, now: int, d: string): set<string> {
    set e | e in Running(rows, x, now) && Prior(CandidateOf(rows, x, now, e), CandidateOf(rows, x, now, d))
  }

  /** The domains with fewer than k ahead of them. */
  function Chosen(rows: Rows, x: Input, now: int, k: nat): set<string> {
    set d | d in Running(rows, x, now) && |Ahead(rows, x, now, d)| < k
  }

  predicate Queued(q: seq<Candidate>) {
    forall i, j :: 0 <= i < j < |q| ==> Prior(q[i], q[j])
  }

  lemma {:induction false} PartsRanked(s: seq<Candidate>)
    requires Ranked(s)
    ensures Ranked(HeldOf(s)) && Ranked(FreeOf(s))
  {
    if s != [] {
      var front, last := s[..|s| - 1], s[|s| - 1];
      PartsRanked(front);
      QueueLists(front);
      hide Better;
      forall c | c in front
        ensures Better(c, last)
      {
        var i :| 0 <= i < |front| && front[i] == c;
        assert s[i] == c;
      }
      SnocRanked(HeldOf(front), last);
      SnocRanked(FreeOf(front), last);
    }
  }

  lemma SnocRanked(s: seq<Candidate>, c: Candidate)
    requires Ranked(s) && forall y <- s :: Better(y, c)
    ensures Ranked(s + [c])
  {
    hide Better;
    assert forall i :: 0 <= i < |s| ==> s[i] in s;
  }

  lemma QueueQueued(s: seq<Candidate>)
    requires Ranked(s)
    ensures Queued(Queue(s)) && |Queue(s)| == |s| && forall c :: c in Queue(s) <==> c in s
  {
    PartsRanked(s);
    QueueLists(s);
    var h, f := HeldOf(s), FreeOf(s);
    hide HeldOf, FreeOf, Better;
    forall i, j | 0 <= i < j < |h + f|
      ensures Prior((h + f)[i], (h + f)[j])
    {
      assert i < |h| ==> h[i] in h;
      assert i >= |h| ==> f[i - |h|] in f;
      assert j < |h| ==> h[j] in h;
      assert j >= |h| ==> f[j - |h|] in f;
    }
  }

  lemma PriorStrict(a: Candidate, b: Candidate)
    requires Prior(a, b)
    ensures !Prior(b, a)
  {
    if Better(a, b) && Better(b, a) {
      BetterTransitive(a, b, a);
      BetterStrict(a);
    }
  }

  lemma PriorTotal(a: Candidate, b: Candidate)
    requires a.domain != b.domain
    ensures Prior(a, b) || Prior(b, a)
  {
    BetterTotal(a, b);
  }

  function FirstDomains(q: seq<Candidate>, n: nat): set<string>
    requires n <= |q|
  {
    set i | 0 <= i < n :: q[i].domain
  }

  lemma {:induction false} PrefixDomains(q: seq<Candidate>, n: nat)
    requires n <= |q| && DistinctDomains(q)
    ensures |FirstDomains(q, n)| == n
  {
    if n > 0 {
      PrefixDomains(q, n - 1);
      OneMoreDomain(q, n);
    }
  }

  lemma OneMoreDomain(q: seq<Candidate>, n: nat)
    requires 0 < n <= |q| && DistinctDomains(q)
    ensures FirstDomains(q, n) == FirstDomains(q, n - 1) + {q[n - 1].domain} && q[n - 1].domain !in FirstDomains(q, n - 1)
  {
  }

  /** In the queue every candidate stands behind exactly those that go before it. */
  lemma QueuePositions(q: seq<Candidate>, rows: Rows, x: Input, now: int, n: nat)
    requires Queued(q) && ListsRunning(q, rows, x, now) && n < |q|
    ensures |Ahead(rows, x, now, q[n].domain)| == n
  {
    PrefixDomains(q, n);
    var d := q[n].domain;
    assert q[n] in q;
    hide Running, CandidateOf, Prior, DistinctDomains;
    forall e
      ensures e in Ahead(rows, x, now, d) <==> e in FirstDomains(q, n)
    {
      if e in Ahead(rows, x, now, d) {
        var c := CandidateOf(rows, x, now, e);
        assert c in q;
        var i :| 0 <= i < |q| && q[i] == c;
        NamedAfter(rows, x, now, e);
        if i >= n {
          PriorStrict(c, q[n]);
        }
      }
      if i :| 0 <= i < n && q[i].domain == e {
        assert q[i] in q && Prior(q[i], q[n]);
      }
    }
    assert Ahead(rows, x, now, d) == FirstDomains(q, n);
  }

  /** What is picked from the sorted candidates are the chosen domains, each once. */
  lemma PickedIsChosen(cands: seq<Candidate>, rows: Rows, x: Input, now: int, k: nat)
    requires Ranked(cands) && ListsRunning(cands, rows, x, now)
    ensures var r := Domains(Front(Queue(cands), k));
      && (forall d :: d in r <==> d in Chosen(rows, x, now, k))
      && (forall i, j :: 0 <= i < j < |r| ==> r[i] != r[j])
      && |r| == |Chosen(rows, x, now, k)| == (if |cands| < k then |cands| else k)
      && |cands| == |Running(rows, x, now)|
  {
    var q := Queue(cands);
    QueueQueued(cands);
    QueueDistinct(cands, rows, x, now);
    hide Queue, Queued, Running, CandidateOf, Ahead, ListsRunning, DistinctDomains, Ranked;
    forall n | 0 <= n < |q|
      ensures |Ahead(rows, x, now, q[n].domain)| == n
    {
      QueuePositions(q, rows, x, now, n);
    }
    AllRunning(q, rows, x, now);
    hide Chosen;
    forall d
      ensures d in Domains(Front(q, k)) <==> d in Chosen(rows, x, now, k)
    {
      PickedOne(q, rows, x, now, k, d);
    }
    FrontDomains(q, k, Chosen(rows, x, now, k));
  }

  /** The first k of a queue are distinct, and as many as there can be. */
  lemma FrontDomains(q: seq<Candidate>, k: nat, chosen: set<string>)
    requires DistinctDomains(q) && forall d :: d in Domains(Front(q, k)) <==> d in chosen
    ensures var r := Domains(Front(q, k));
      && (forall i, j :: 0 <= i < j < |r| ==> r[i] != r[j])
      && |r| == |chosen| == (if |q| < k then |q| else k)
  {
    var f := Front(q, k);
    assert forall i :: 0 <= i < |f| ==> f[i] == q[i];
    PrefixDomains(f, |f|);
    forall d
      ensures d in FirstDomains(f, |f|) <==> d in chosen
    {
      if i :| 0 <= i < |f| && f[i].domain == d {
        assert Domains(f)[i] == d;
      }
    }
    assert chosen == FirstDomains(f, |f|);
  }

  lemma AllRunning(q: seq<Candidate>, rows: Rows, x: Input, now: int)
    requires ListsRunning(q, rows, x, now)
    ensures |q| == |Running(rows, x, now)|
  {
    PrefixDomains(q, |q|);
    hide Running, CandidateOf;
    forall d
      ensures d in FirstDomains(q, |q|) <==> d in Running(rows, x, now)
    {
      if i :| 0 <= i < |q| && q[i].domain == d {
        assert q[i] in q;
      }
      if d in Running(rows, x, now) {
        NamedAfter(rows, x, now, d);
        var i :| 0 <= i < |q| && q[i] == CandidateOf(rows, x, now, d);
      }
    }
    assert FirstDomains(q, |q|) == Running(rows, x, now);
  }

  lemma PickedOne(q: seq<Candidate>, rows: Rows, x: Input, now: int, k: nat, d: string)
    requires ListsRunning(q, rows, x, now)
    requires forall n :: 0 <= n < |q| ==> |Ahead(rows, x, now, q[n].domain)| == n
    ensures d in Domains(Front(q, k)) <==> d in Chosen(rows, x, now, k)
    ensures forall i :: 0 <= i < |Front(q, k)| ==> Front(q, k)[i] == q[i] && Domains(Front(q, k))[i] == q[i].domain
  {
    hide Running, CandidateOf, Ahead;
    var r := Domains(Front(q, k));
    if d in r {
      var i :| 0 <= i < |r| && r[i] == d;
      assert q[i] in q && q[i].domain == d;
    }
    if d in Chosen(rows, x, now, k) {
      var c := CandidateOf(rows, x, now, d);
      NamedAfter(rows, x, now, d);
      assert c in q;
      var i :| 0 <= i < |q| && q[i] == c;
      assert i < |r| && r[i] == d;
    }
  }

  lemma QueueDistinct(cands: seq<Candidate>, rows: Rows, x: Input, now: int)
    requires Ranked(cands) && ListsRunning(cands, rows, x, now)
    ensures ListsRunning(Queue(cands), rows, x, now) && DistinctDomains(Queue(cands))
  {
    QueueQueued(cands);
    var q := Queue(cands);
    hide Queue, Running, CandidateOf, Prior;
    forall i, j | 0 <= i < j < |q|
      ensures q[i].domain != q[j].domain
    {
      assert q[i] in q && q[j] in q;
      if q[i].domain == q[j].domain {
        assert q[i] == q[j];
        PriorStrict(q[i], q[j]);
      }
    }
  }

  // ----- one round of one inbound

  /** Rows whose cooldown is over are dropped before the round. */
  function Cleaned(rows: Rows, now: int): Rows {
    map d | d in rows && !(0 < rows[d].cooldownUntil <= now) :: rows[d]
  }

  predicate Stays(rows: Rows, x: Input, now: int, chosen: set<string>, d: string) {
    d in chosen || Cooling(rows, now, d) || Retired(rows, x, now, d)
  }

  function NextRow(rows: Rows, x: Input, now: int, chosen: set<string>, d: string): PoolRow
    requires d in rows || d in chosen
  {
    if d in chosen then
      if Pooled(rows, now, d) then rows[d].(zeroRounds := ZeroRounds(rows, x, d)) else PoolRow(now, 0, 0)
    else if Retired(rows, x, now, d) then rows[d].(cooldownUntil := now + COOLDOWN, zeroRounds := 0)
    else rows[d]
  }

  /** Chosen domains stay or enter, retired ones cool down, displaced ones go. */
  function NextRows(rows: Rows, x: Input, now: int, chosen: set<string>): Rows {
    map d | d in rows.Keys + chosen && Stays(rows, x, now, chosen, d) :: NextRow(rows, x, now, chosen, d)
  }

  class MeterPoolService {
    var rows: map<int, Rows>

    constructor ()
      ensures rows == map[]
    {
      rows := map[];
    }

    method RecomputeInbound(inbound: int, k: nat, now: int, x: Input) returns (changed: nat)
      requires DistinctAggs(x.aggs) && inbound in rows
      modifies this
      ensures rows == old(rows)[inbound := NextRows(old(rows)[inbound], x, now, Chosen(old(rows)[inbound], x, now, k))]
      ensures changed == 0 <==>
        forall d :: d in Chosen(old(rows)[inbound], x, now, k) <==> Pooled(old(rows)[inbound], now, d)
    {
      var mine := rows[inbound];
      var cands := BuildCandidates(mine, x, now);
      var newPool := PickPool(cands, k);
      PickedIsChosen(cands, mine, x, now, k);
      ghost var chosen := Chosen(mine, x, now, k);
      SameNames(newPool, Domains(Front(Queue(cands), k)), chosen);
      hide Chosen, Running, ListsRunning, Runs, Queue, Front, Ranked, Retired, ZeroRounds, NextRow, NextRows;
      var next, entered := Enter(mine, x, now, newPool, chosen);
      var left;
      next, left := Leave(mine, x, now, newPool, chosen, next);
      NextIs(mine, x, now, chosen, next);
      rows := rows[inbound := next];
      changed := entered + left;
    }

    method RecomputeSource(s: Source, k: nat, now: int) returns (changed: nat)
      requires DistinctAggs(s.input.aggs)
      modifies this
      ensures var mine := RowsFor(old(rows), s.inbound);
        rows == old(rows)[s.inbound := NextRows(mine, s.input, now, Chosen(mine, s.input, now, k))]
    {
      hide NextRows, Chosen, DistinctAggs, Pooled;
      if s.inbound !in rows {
        rows := rows[s.inbound := map[]];
      }
      changed := RecomputeInbound(s.inbound, k, now, s.input);
    }

    /** One round over all enabled inbounds; nothing happens while too many dead counters are around. */
    method Recompute(sources: seq<Source>, now: int, stale: nat) returns (changed: nat)
      requires forall s <- sources :: DistinctAggs(s.input.aggs)
      modifies this
      ensures rows == Recomputed(old(rows), sources, now, stale)
    {
      changed := 0;
      if stale > STALE_LIMIT {
        return;
      }
      rows := CleanTable(rows, now);
      var k := Capacity(|sources|);
      for i := 0 to |sources|
        invariant rows == RoundAll(CleanTable(old(rows), now), sources[..i], k, now)
      {
        hide NextRows, Chosen, CleanTable, DistinctAggs, Pooled, Capacity;
        assert sources[..i + 1][..i] == sources[..i];
        var s := sources[i];
        assert s in sources;
        var n := RecomputeSource(s, k, now);
        changed := changed + n;
      }
      assert sources[..|sources|] == sources;
    }
  }

  lemma SameNames(names: seq<string>, picked: seq<string>, chosen: set<string>)
    requires multiset(names) == multiset(picked) && forall d :: d in picked <==> d in chosen
    ensures forall d :: d in names <==> d in chosen
  {
    forall d
      ensures d in names <==> d in picked
    {
      assert d in names <==> d in multiset(names);
      assert d in picked <==> d in multiset(picked);
    }
  }

  method Enter(mine: Rows, x: Input, now: int, newPool: seq<string>, ghost chosen: set<string>)
    returns (next: Rows, changed: nat)
    requires forall d :: d in newPool <==> d in chosen
    ensures forall d :: d in next <==> d in mine || d in chosen
    ensures forall d :: d in next ==> next[d] == if d in chosen then NextRow(mine, x, now, chosen, d) else mine[d]
    ensures changed > 0 <==> exists d :: d in chosen && !Pooled(mine, now, d)
  {
    hide ZeroRounds;
    changed, next := 0, mine;
    for i := 0 to |newPool|
      invariant forall d :: d in next <==> d in mine || d in newPool[..i]
      invariant forall d :: d in next ==> next[d] == if d in newPool[..i] then NextRow(mine, x, now, chosen, d) else mine[d]
      invariant changed > 0 <==> exists j :: 0 <= j < i && !Pooled(mine, now, newPool[j])
    {
      var d := newPool[i];
      assert newPool[..i + 1] == newPool[..i] + [d];
      assert d in newPool;
      if Pooled(mine, now, d) {
        next := next[d := mine[d].(zeroRounds := ZeroRounds(mine, x, d))];
        continue;
      }
      next := next[d := PoolRow(now, 0, 0)];
      changed := changed + 1;
    }
    assert newPool[..|newPool|] == newPool;
  }

  predicate Leaves(mine: Rows, now: int, chosen: set<string>, d: string) {
    Pooled(mine, now, d) && d !in chosen
  }

  method Leave(mine: Rows, x: Input, now: int, newPool: seq<string>, ghost chosen: set<string>, entered: Rows)
    returns (next: Rows, changed: nat)
    requires forall d :: d in newPool <==> d in chosen
    requires forall d :: d in entered <==> d in mine || d in chosen
    requires forall d :: d in entered ==> entered[d] == if d in chosen then NextRow(mine, x, now, chosen, d) else mine[d]
    ensures forall d :: d in next <==> (d in mine || d in chosen) && (Leaves(mine, now, chosen, d) ==> Retired(mine, x, now, d))
    ensures forall d :: d in next ==> next[d] == NextRow(mine, x, now, chosen, d)
    ensures changed > 0 <==> exists d :: Leaves(mine, now, chosen, d)
  {
    hide ZeroRounds;
    changed, next := 0, entered;
    var leaving := set d | d in mine && Pooled(mine, now, d) && d !in newPool;
    assert forall d :: d in leaving <==> Leaves(mine, now, chosen, d);
    while leaving != {}
      invariant forall d <- leaving :: Leaves(mine, now, chosen, d)
      invariant forall d :: d in next <==>
        && (d in mine || d in chosen)
        && (Leaves(mine, now, chosen, d) && d !in leaving ==> Retired(mine, x, now, d))
      invariant forall d :: Leaves(mine, now, chosen, d) && d !in leaving ==> changed > 0
      invariant changed > 0 ==> exists d :: Leaves(mine, now, chosen, d)
      invariant forall d :: d in next ==> next[d] == if d in leaving then mine[d] else NextRow(mine, x, now, chosen, d)
      decreases |leaving|
    {
      assert Element(leaving) in leaving;
      var d :| d in leaving;
      if Retired(mine, x, now, d) {
        next := next[d := mine[d].(cooldownUntil := now + COOLDOWN, zeroRounds := 0)];
      } else {
        next := next - {d};
      }
      changed := changed + 1;
      leaving := leaving - {d};
    }
  }

  lemma NextIs(rows: Rows, x: Input, now: int, chosen: set<string>, next: Rows)
    requires forall d :: d in next <==> (d in rows || d in chosen) && (Leaves(rows, now, chosen, d) ==> Retired(rows, x, now, d))
    requires forall d :: d in next ==> next[d] == NextRow(rows, x, now, chosen, d)
    ensures next == NextRows(rows, x, now, chosen)
  {
    hide ZeroRounds, NextRow;
    var goal := NextRows(rows, x, now, chosen);
    forall d
      ensures d in next <==> d in goal
    {
    }
    assert next.Keys == goal.Keys;
  }

  // ----- what a round does to the pool

  /** A row is in the pool when it has no cooldown at all. */
  function InPool(rows: Rows): set<string> {
    set d | d in rows && rows[d].cooldownUntil == 0
  }

  /** Rows as a round finds them: in the pool, or cooling beyond now, and never with a full count of idle rounds. */
  predicate Tidy(rows: Rows, now: int) {
    forall d <- rows :: Cooled(rows[d], now)
  }

  predicate Cooled(r: PoolRow, now: int) {
    (r.cooldownUntil == 0 && r.zeroRounds < GIVE_UP_ROUNDS) || r.cooldownUntil > now
  }

  /** After a round exactly the chosen domains are in the pool, no more than k, and the rows stay tidy. */
  lemma RoundPools(rows: Rows, x: Input, now: int, k: nat)
    requires Tidy(rows, now) && now >= 0
    ensures var next := NextRows(rows, x, now, Chosen(rows, x, now, k));
      && InPool(next) == Chosen(rows, x, now, k) && Tidy(next, now)
  {
    hide AggOf, Conns;
    var chosen := Chosen(rows, x, now, k);
    var next := NextRows(rows, x, now, chosen);
    forall d | d in next
      ensures Cooled(next[d], now) && (next[d].cooldownUntil == 0 <==> d in chosen)
    {
      assert d in rows ==> Cooled(rows[d], now);
    }
    assert forall d :: d in chosen ==> d in next;
    hide NextRow, Chosen, Stays;
  }

  lemma {:induction false} SomeList(rows: Rows, x: Input, now: int, s: set<string>) returns (cands: seq<Candidate>)
    requires s <= Running(rows, x, now)
    ensures DistinctDomains(cands)
    ensures forall c <- cands :: c.domain in s && c == CandidateOf(rows, x, now, c.domain)
    ensures forall d <- s :: CandidateOf(rows, x, now, d) in cands
    decreases s
  {
    hide Running, CandidateOf;
    if s == {} {
      cands := [];
    } else {
      assert Element(s) in s;
      var d :| d in s;
      cands := SomeList(rows, x, now, s - {d});
      NamedAfter(rows, x, now, d);
      Appended(cands, CandidateOf(rows, x, now, d));
      cands := cands + [CandidateOf(rows, x, now, d)];
    }
  }

  /** As many domains are chosen as there are places or candidates, whichever is less. */
  lemma ChosenFills(rows: Rows, x: Input, now: int, k: nat)
    ensures var n := |Running(rows, x, now)|; |Chosen(rows, x, now, k)| == if n < k then n else k
  {
    var list := SomeList(rows, x, now, Running(rows, x, now));
    hide Running, Chosen, CandidateOf;
    SortRanked(list);
    Resorted(list, SortCands(list), rows, x, now);
    PickedIsChosen(SortCands(list), rows, x, now, k);
  }

  /** The held domains that take part. */
  function HeldRunning(rows: Rows, x: Input, now: int): set<string> {
    set d | d in Running(rows, x, now) && Held(rows, now, d)
  }

  /**
   A domain within its minimum hold is not displaced while the held ones fit, unless it is retired or can no longer be
   metered at all.
   */
  lemma HeldStays(rows: Rows, x: Input, now: int, k: nat, d: string)
    requires d in rows && rows[d].cooldownUntil <= now && now - rows[d].enteredAt < 2 * 3600
    requires x.isMeterable(d) && (AggOf(x.aggs, d).bytes > 0 || rows[d].zeroRounds + 1 < 3)
    requires |HeldRunning(rows, x, now)| <= k
    ensures d in Chosen(rows, x, now, k)
  {
    assert Held(rows, now, d) && !Retired(rows, x, now, d);
    hide AggOf, Conns, Weight, ZeroRounds, Better;
    assert d in Running(rows, x, now);
    var ahead, held := Ahead(rows, x, now, d), HeldRunning(rows, x, now);
    PriorToItself(CandidateOf(rows, x, now, d));
    forall e | e in ahead
      ensures e in held - {d}
    {
    }
    hide Running, Ahead, HeldRunning;
    assert held == (held - {d}) + {d};
    SubsetCard(ahead, held - {d});
  }

  lemma PriorToItself(c: Candidate)
    ensures !Prior(c, c)
  {
    BetterStrict(c);
  }

  /**
   A newcomer displaces an incumbent only with at least one and a quarter times its weight: if the incumbent takes part
   and is left out while a domain not in the pool is chosen.
   */
  lemma SwapMargin(rows: Rows, x: Input, now: int, k: nat, incumbent: string, newcomer: string)
    requires Pooled(rows, now, incumbent) && incumbent in Running(rows, x, now) && incumbent !in Chosen(rows, x, now, k)
    requires !Pooled(rows, now, newcomer) && newcomer in Chosen(rows, x, now, k)
    ensures !Held(rows, now, incumbent)
    ensures Weight(x, newcomer) >= Weight(x, incumbent) * SWAP_MARGIN
  {
    var a, b := CandidateOf(rows, x, now, newcomer), CandidateOf(rows, x, now, incumbent);
    PriorTotal(a, b);
    hide Runs, Known, Weight, Better, LessText;
    if Prior(b, a) {
      forall e | e in Ahead(rows, x, now, incumbent)
        ensures e in Ahead(rows, x, now, newcomer)
      {
        PriorTransitive(CandidateOf(rows, x, now, e), b, a);
      }
      SubsetCard(Ahead(rows, x, now, incumbent), Ahead(rows, x, now, newcomer));
    }
    BetterIsHeavier(a, b);
  }

  lemma BetterIsHeavier(a: Candidate, b: Candidate)
    ensures Better(a, b) ==> a.weight >= b.weight
  {
  }

  lemma PriorTransitive(a: Candidate, b: Candidate, c: Candidate)
    requires Prior(a, b) && Prior(b, c)
    ensures Prior(a, c)
  {
    if Better(a, b) && Better(b, c) {
      BetterTransitive(a, b, c);
    }
  }

  // ----- all inbounds, and rounds over time

  datatype Source = Source(inbound: int, input: Input)

  type Table = map<int, Rows>

  function RowsFor(t: Table, inbound: int): Rows {
    if inbound in t then t[inbound] else map[]
  }

  function CleanTable(t: Table, now: int): Table {
    map i | i in t :: Cleaned(t[i], now)
  }

  function RoundAll(t: Table, sources: seq<Source>, k: nat, now: int): Table {
    if sources == [] then t
    else
      var front, s := RoundAll(t, sources[..|sources| - 1], k, now), sources[|sources| - 1];
      var rows := RowsFor(front, s.inbound);
      front[s.inbound := NextRows(rows, s.input, now, Chosen(rows, s.input, now, k))]
  }

  /** Too many dead counters freeze the pool; otherwise every enabled inbound is recomputed. */
  function Recomputed(t: Table, sources: seq<Source>, now: int, stale: nat): Table {
    if stale > STALE_LIMIT then t else RoundAll(CleanTable(t, now), sources, Capacity(|sources|), now)
  }

  predicate DistinctSources(sources: seq<Source>) {
    forall i, j :: 0 <= i < j < |sources| ==> sources[i].inbound != sources[j].inbound
  }

  /** Each inbound's rows depend on its own rows and input only. */
  lemma {:induction false} RoundOf(t: Table, sources: seq<Source>, k: nat, now: int, i: nat)
    requires DistinctSources(sources) && i < |sources|
    ensures var s := sources[i]; var rows := RowsFor(t, s.inbound);
      RowsFor(RoundAll(t, sources, k, now), s.inbound) == NextRows(rows, s.input, now, Chosen(rows, s.input, now, k))
  {
    hide NextRows, Chosen;
    var front := sources[..|sources| - 1];
    if i < |front| {
      RoundOf(t, front, k, now, i);
    } else {
      RoundElsewhere(t, front, k, now, sources[i].inbound);
    }
  }

  lemma {:induction false} RoundElsewhere(t: Table, sources: seq<Source>, k: nat, now: int, inbound: int)
    requires forall s <- sources :: s.inbound != inbound
    ensures RowsFor(RoundAll(t, sources, k, now), inbound) == RowsFor(t, inbound)
  {
    hide NextRows, Chosen;
    if sources != [] {
      RoundElsewhere(t, sources[..|sources| - 1], k, now, inbound);
      assert sources[|sources| - 1] in sources;
    }
  }

  /** Rows between rounds. */
  predicate Sound(rows: Rows) {
    forall d <- rows :: rows[d].cooldownUntil >= 0 && (rows[d].cooldownUntil == 0 ==> rows[d].zeroRounds < GIVE_UP_ROUNDS)
  }

  predicate AllSound(t: Table) {
    forall i <- t :: Sound(t[i])
  }

  lemma CleanedTidy(rows: Rows, now: int)
    requires Sound(rows)
    ensures Tidy(Cleaned(rows, now), now)
  {
  }

  function PoolTotal(t: Table, sources: seq<Source>): nat {
    if sources == [] then 0
    else PoolTotal(t, sources[..|sources| - 1]) + |InPool(RowsFor(t, sources[|sources| - 1].inbound))|
  }

  lemma {:induction false} TotalWithin(t: Table, sources: seq<Source>, k: nat)
    requires forall s <- sources :: |InPool(RowsFor(t, s.inbound))| <= k
    ensures PoolTotal(t, sources) <= |sources| * k
  {
    if sources != [] {
      hide InPool, RowsFor;
      assert sources[|sources| - 1] in sources;
      TotalWithin(t, sources[..|sources| - 1], k);
      OneMore(|sources|, k);
    }
  }

  lemma OneMore(n: nat, k: nat)
    requires n > 0
    ensures (n - 1) * k + k == n * k
  {
  }

  /**
   After an unfrozen round every enabled inbound has at most its capacity in the pool, and all of them together at
   most the budget of two hundred, however many inbounds there are.
   */
  lemma BudgetKept(t: Table, sources: seq<Source>, now: int, stale: nat)
    requires stale <= STALE_LIMIT && now >= 0 && DistinctSources(sources)
    requires AllSound(t)
    ensures var after := Recomputed(t, sources, now, stale);
      && (forall s <- sources :: |InPool(RowsFor(after, s.inbound))| <= Capacity(|sources|) <= CAP_MAX)
      && PoolTotal(after, sources) <= BUDGET
  {
    var k, clean := Capacity(|sources|), CleanTable(t, now);
    var after := RoundAll(clean, sources, k, now);
    hide NextRows, Chosen, InPool, RoundAll, PoolTotal, Capacity, Sound;
    forall s | s in sources
      ensures |InPool(RowsFor(after, s.inbound))| <= k
    {
      var i :| 0 <= i < |sources| && sources[i] == s;
      RoundOf(clean, sources, k, now, i);
      var rows := RowsFor(clean, s.inbound);
      assert Tidy(rows, now) by {
        if s.inbound in t {
          CleanedTidy(t[s.inbound], now);
        }
      }
      RoundPools(rows, s.input, now, k);
      ChosenFills(rows, s.input, now, k);
    }
    TotalWithin(after, sources, k);
  }

  // ----- rounds over time

  datatype Round = Round(sources: seq<Source>, now: int, stale: nat)

  function AfterRounds(t: Table, rounds: seq<Round>): Table {
    if rounds == [] then t
    else
      var r := rounds[|rounds| - 1];
      Recomputed(AfterRounds(t, rounds[..|rounds| - 1]), r.sources, r.now, r.stale)
  }

  /** A cooling row passes through a round of its own inbound unchanged. */
  lemma CoolingPasses(rows: Rows, x: Input, now: int, k: nat, d: string)
    requires d in rows && rows[d].cooldownUntil > now
    ensures var next := NextRows(rows, x, now, Chosen(rows, x, now, k)); d in next && next[d] == rows[d]
  {
    hide AggOf, Conns, Weight, Ahead;
  }

  lemma CoolingThroughRound(t: Table, r: Round, inbound: int, d: string)
    requires DistinctSources(r.sources)
    requires d in RowsFor(t, inbound) && RowsFor(t, inbound)[d].cooldownUntil > r.now
    ensures var rows := RowsFor(Recomputed(t, r.sources, r.now, r.stale), inbound);
      d in rows && rows[d] == RowsFor(t, inbound)[d]
  {
    if r.stale <= STALE_LIMIT {
      var clean, k := CleanTable(t, r.now), Capacity(|r.sources|);
      assert d in RowsFor(clean, inbound) && RowsFor(clean, inbound)[d] == RowsFor(t, inbound)[d];
      hide NextRows, Chosen, RoundAll, CleanTable, Cleaned;
      if exists i :: 0 <= i < |r.sources| && r.sources[i].inbound == inbound {
        var i :| 0 <= i < |r.sources| && r.sources[i].inbound == inbound;
        RoundOf(clean, r.sources, k, r.now, i);
        CoolingPasses(RowsFor(clean, inbound), r.sources[i].input, r.now, k, d);
      } else {
        RoundElsewhere(clean, r.sources, k, r.now, inbound);
      }
    }
  }

  /** Whatever rounds follow, frozen or not, a domain that cools down stays out of the pool until its time is over. */
  lemma {:induction false} CooldownHolds(t: Table, rounds: seq<Round>, inbound: int, d: string)
    requires d in RowsFor(t, inbound) && RowsFor(t, inbound)[d].cooldownUntil > 0
    requires forall r <- rounds :: DistinctSources(r.sources) && r.now < RowsFor(t, inbound)[d].cooldownUntil
    ensures var rows := RowsFor(AfterRounds(t, rounds), inbound);
      d in rows && rows[d] == RowsFor(t, inbound)[d] && d !in InPool(rows)
  {
    hide Recomputed, RowsFor;
    if rounds != [] {
      var front, r := rounds[..|rounds| - 1], rounds[|rounds| - 1];
      assert r in rounds && forall x <- front :: x in rounds;
      CooldownHolds(t, front, inbound, d);
      CoolingThroughRound(AfterRounds(t, front), r, inbound, d);
    }
  }

  /** A domain in the pool that carried nothing for three rounds in a row cools down for a day. */
  lemma IdleRetires(rows: Rows, x: Input, now: int, k: nat, d: string)
    requires d in rows && rows[d].cooldownUntil == 0 && now >= 0
    requires rows[d].zeroRounds >= GIVE_UP_ROUNDS - 1 && AggOf(x.aggs, d).bytes == 0
    ensures var next := NextRows(rows, x, now, Chosen(rows, x, now, k));
      d in next && next[d].cooldownUntil == now + COOLDOWN && d !in InPool(next)
  {
    hide AggOf, Conns, Weight, Ahead;
  }

  /** One that carried something starts counting anew, and otherwise the count of idle rounds goes up by one. */
  lemma IdleCounts(rows: Rows, x: Input, now: int, k: nat, d: string)
    requires d in rows && rows[d].cooldownUntil == 0 && now >= 0 && d in Chosen(rows, x, now, k)
    ensures var next := NextRows(rows, x, now, Chosen(rows, x, now, k));
      d in next && next[d] == rows[d].(zeroRounds := if AggOf(x.aggs, d).bytes > 0 then 0 else rows[d].zeroRounds + 1)
  {
    hide AggOf, Conns, Weight, Ahead;
  }

  /** An unfrozen round in which a domain of an inbound carried nothing. */
  predicate IdleIn(r: Round, inbound: int, d: string) {
    r.stale <= STALE_LIMIT && DistinctSources(r.sources) && r.now >= 0 &&
    exists i :: 0 <= i < |r.sources| && r.sources[i].inbound == inbound && AggOf(r.sources[i].input.aggs, d).bytes == 0
  }

  /** Through such a round a domain that stays in the pool counts one more, and with two counted before it is retired. */
  lemma IdleStep(t: Table, r: Round, inbound: int, d: string)
    requires IdleIn(r, inbound, d) && d in InPool(RowsFor(t, inbound))
    ensures var row, next := RowsFor(t, inbound)[d], RowsFor(AfterRounds(t, [r]), inbound);
      && (d in InPool(next) ==> next[d].zeroRounds == row.zeroRounds + 1)
      && (row.zeroRounds >= GIVE_UP_ROUNDS - 1 ==> d in next && next[d].cooldownUntil == r.now + COOLDOWN)
  {
    assert [r][..0] == [] && AfterRounds(t, []) == t;
    var i :| 0 <= i < |r.sources| && r.sources[i].inbound == inbound && AggOf(r.sources[i].input.aggs, d).bytes == 0;
    var clean, k, x := CleanTable(t, r.now), Capacity(|r.sources|), r.sources[i].input;
    RoundOf(clean, r.sources, k, r.now, i);
    var rows := RowsFor(clean, inbound);
    assert d in rows && rows[d] == RowsFor(t, inbound)[d];
    hide RoundAll, CleanTable, Cleaned, AggOf, Conns, Weight, Ahead, Capacity, IdleIn;
    IdleRow(rows, x, r.now, k, d);
  }

  lemma IdleRow(rows: Rows, x: Input, now: int, k: nat, d: string)
    requires d in rows && rows[d].cooldownUntil == 0 && now >= 0 && AggOf(x.aggs, d).bytes == 0
    ensures var next := NextRows(rows, x, now, Chosen(rows, x, now, k));
      && (d in InPool(next) ==> next[d].zeroRounds == rows[d].zeroRounds + 1)
      && (rows[d].zeroRounds >= GIVE_UP_ROUNDS - 1 ==> d in next && next[d].cooldownUntil == now + COOLDOWN)
  {
    if rows[d].zeroRounds >= GIVE_UP_ROUNDS - 1 {
      IdleRetires(rows, x, now, k, d);
    } else if d in Chosen(rows, x, now, k) {
      IdleCounts(rows, x, now, k, d);
    }
    hide AggOf, Conns, Weight, Ahead, Chosen;
  }

  lemma {:induction false} RoundsJoin(t: Table, xs: seq<Round>, ys: seq<Round>)
    ensures AfterRounds(t, xs + ys) == AfterRounds(AfterRounds(t, xs), ys)
    decreases |ys|
  {
    hide Recomputed;
    if ys == [] {
      assert xs + ys == xs;
    } else {
      RoundsJoin(t, xs, ys[..|ys| - 1]);
      assert (xs + ys)[..|xs + ys| - 1] == xs + ys[..|ys| - 1];
    }
  }

  /**
   Three idle rounds and a day: a domain in the pool that carried nothing in three unfrozen rounds in a row, kept by the
   first two, is in no pool after the third, nor after any round of the 24 hours from it, whatever it carries then.
   */
  lemma IdleStaysOut(t: Table, first: Round, second: Round, third: Round, later: seq<Round>, inbound: int, d: string)
    requires IdleIn(first, inbound, d) && IdleIn(second, inbound, d) && IdleIn(third, inbound, d)
    requires d in InPool(RowsFor(t, inbound))
    requires d in InPool(RowsFor(AfterRounds(t, [first]), inbound))
    requires d in InPool(RowsFor(AfterRounds(t, [first, second]), inbound))
    requires forall r <- later :: DistinctSources(r.sources) && r.now < third.now + COOLDOWN
    ensures var rows := RowsFor(AfterRounds(t, [first, second, third] + later), inbound);
      d in rows && rows[d].cooldownUntil == third.now + COOLDOWN && d !in InPool(rows)
  {
    RoundsJoin(t, [first], [second]);
    RoundsJoin(t, [first, second], [third]);
    RoundsJoin(t, [first, second, third], later);
    assert [first] + [second] == [first, second] && [first, second] + [third] == [first, second, third];
    var t1, t2, t3 := AfterRounds(t, [first]), AfterRounds(t, [first, second]), AfterRounds(t, [first, second, third]);
    hide AfterRounds;
    IdleStep(t, first, inbound, d);
    IdleStep(t1, second, inbound, d);
    IdleStep(t2, third, inbound, d);
    assert third.now >= 0;
    CooldownHolds(t3, later, inbound, d);
  }

  /** Sound rows stay sound through every round. */
  lemma RoundKeepsSound(t: Table, r: Round)
    requires DistinctSources(r.sources) && r.now >= 0 && AllSound(t)
    ensures AllSound(Recomputed(t, r.sources, r.now, r.stale))
  {
    if r.stale <= STALE_LIMIT {
      var clean, k := CleanTable(t, r.now), Capacity(|r.sources|);
      forall i | i in clean
        ensures Tidy(clean[i], r.now)
      {
        CleanedTidy(t[i], r.now);
      }
      hide NextRows, Chosen, CleanTable, Sound, Tidy;
      forall i | i in RoundAll(clean, r.sources, k, r.now)
        ensures Sound(RoundAll(clean, r.sources, k, r.now)[i])
      {
        SoundAt(clean, r.sources, k, r.now, i);
      }
    }
  }

  lemma SoundAt(clean: Table, sources: seq<Source>, k: nat, now: int, inbound: int)
    requires DistinctSources(sources) && now >= 0 && forall i <- clean :: Tidy(clean[i], now)
    ensures Sound(RowsFor(RoundAll(clean, sources, k, now), inbound))
  {
    var rows := RowsFor(clean, inbound);
    assert Tidy(rows, now) by {
      if inbound !in clean {
        assert rows == map[];
      }
    }
    hide NextRows, Chosen, RoundAll;
    if exists n :: 0 <= n < |sources| && sources[n].inbound == inbound {
      var n :| 0 <= n < |sources| && sources[n].inbound == inbound;
      RoundOf(clean, sources, k, now, n);
      RoundPools(rows, sources[n].input, now, k);
    } else {
      RoundElsewhere(clean, sources, k, now, inbound);
    }
  }

  /** So the budget holds after every round of every run that starts without rows. */
  lemma {:induction false} SoundAfterRounds(rounds: seq<Round>)
    requires forall r <- rounds :: DistinctSources(r.sources) && r.now >= 0
    ensures AllSound(AfterRounds(map[], rounds))
  {
    hide AllSound, Recomputed;
    if rounds != [] {
      var front, r := rounds[..|rounds| - 1], rounds[|rounds| - 1];
      assert r in rounds && forall x <- front :: x in rounds;
      SoundAfterRounds(front);
      RoundKeepsSound(AfterRounds(map[], front), r);
    } else {
      NothingSound();
    }
  }

  lemma NothingSound()
    ensures AllSound(map[])
  {
  }

  /** A domain that enters is held from then on, and counts no idle round yet. */
  lemma NewcomerEnters(rows: Rows, x: Input, now: int, k: nat, d: string)
    requires d in Chosen(rows, x, now, k) && d !in rows
    ensures var next := NextRows(rows, x, now, Chosen(rows, x, now, k)); d in next && next[d] == PoolRow(now, 0, 0)
  {
    hide Chosen;
  }
}
