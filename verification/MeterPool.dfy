/** Choosing which domains of an inbound are metered: capacity, minimum hold, retirement with cooldown, swap margin. */
module MeterPool {
  import opened Collections

  const BUDGET := 200
  const CAP_MAX := 60
  const ROUND := 3600
  const MIN_HOLD_ROUNDS := 2
  const GIVE_UP_ROUNDS := 3
  const MIN_TRIAL_CONNS := 3
  const COOLDOWN := 24 * 3600
  const SWAP_MARGIN := 1.25
  const STALE_LIMIT := 2000

  /** The use of one domain in the window; one entry per domain. */
  datatype Agg = Agg(domain: string, bytes: nat, count: nat)

  /** Times are seconds. A row without a cooldown is in the pool. */
  datatype PoolRow = PoolRow(enteredAt: int, zeroRounds: nat, cooldownUntil: int)

  datatype Candidate = Candidate(domain: string, count: nat, weight: real, mustKeep: bool)

  /** What a round knows of one inbound; meterable is None when the access log is off. */
  datatype Input = Input(aggs: seq<Agg>, meterable: Option<map<string, nat>>, isMeterable: string -> bool)

  function Capacity(enabled: nat): (k: nat)
    ensures k <= CAP_MAX && k * enabled <= BUDGET
    ensures enabled > BUDGET ==> k == 0
    ensures 1 <= enabled <= BUDGET ==> k >= 1
    ensures k == CAP_MAX || (k + 1) * (if enabled < 1 then 1 else enabled) > BUDGET
  {
    var n := if enabled < 1 then 1 else enabled;
    var k := BUDGET / n;
    assert k * n <= BUDGET;
    if k > CAP_MAX then Smaller(CAP_MAX, k, n); CAP_MAX else k
  }

  lemma Smaller(a: nat, b: nat, n: nat)
    requires a <= b
    ensures a * n <= b * n
  {
  }

  // ----- weights

  function MeasuredBytes(aggs: seq<Agg>): nat {
    if aggs == [] then 0
    else MeasuredBytes(aggs[..|aggs| - 1]) + aggs[|aggs| - 1].bytes
  }

  function MeasuredConns(aggs: seq<Agg>): nat {
    if aggs == [] then 0
    else MeasuredConns(aggs[..|aggs| - 1]) + if aggs[|aggs| - 1].bytes > 0 then aggs[|aggs| - 1].count else 0
  }

  /** Bytes per connection over the domains that were measured, 0 when there are none. */
  function AvgBytesPerConn(aggs: seq<Agg>): (r: real)
    ensures r >= 0.0
  {
    if MeasuredConns(aggs) == 0 then 0.0 else MeasuredBytes(aggs) as real / MeasuredConns(aggs) as real
  }

  method AverageBytes(aggs: seq<Agg>) returns (avg: real)
    ensures avg == AvgBytesPerConn(aggs)
  {
    var bytes, count := 0, 0;
    for i := 0 to |aggs|
      invariant bytes == MeasuredBytes(aggs[..i]) && count == MeasuredConns(aggs[..i])
    {
      assert aggs[..i + 1][..i] == aggs[..i];
      if aggs[i].bytes <= 0 {
        continue;
      }
      bytes := bytes + aggs[i].bytes;
      count := count + aggs[i].count;
    }
    assert aggs[..|aggs|] == aggs;
    if count <= 0 {
      return 0.0;
    }
    return bytes as real / count as real;
  }

  function AggOf(aggs: seq<Agg>, d: string): Agg {
    if aggs == [] then Agg(d, 0, 0)
    else if aggs[|aggs| - 1].domain == d then aggs[|aggs| - 1] else AggOf(aggs[..|aggs| - 1], d)
  }

  function Conns(x: Input, d: string): nat {
    match x.meterable
    case None => AggOf(x.aggs, d).count
    case Some(m) => if d in m then m[d] else 0
  }

  /** Measured bytes, or the connections that metering could catch at the average size. */
  function Weight(x: Input, d: string): (w: real)
    ensures w >= 0.0
  {
    if AggOf(x.aggs, d).bytes > 0 then AggOf(x.aggs, d).bytes as real
    else Times(Conns(x, d) as real, AvgBytesPerConn(x.aggs))
  }

  function Times(a: real, b: real): (r: real)
    requires a >= 0.0 && b >= 0.0
    ensures r >= 0.0
  {
    a * b
  }

  /** The rows of one inbound by domain, as the round finds them. */
  type Rows = map<string, PoolRow>

  predicate Pooled(rows: Rows, now: int, d: string) {
    d in rows && rows[d].cooldownUntil <= now
  }

  predicate Cooling(rows: Rows, now: int, d: string) {
    d in rows && rows[d].cooldownUntil > now
  }

  function ZeroRounds(rows: Rows, x: Input, d: string): nat
    requires d in rows
  {
    if AggOf(x.aggs, d).bytes > 0 then 0 else rows[d].zeroRounds + 1
  }

  predicate Retired(rows: Rows, x: Input, now: int, d: string) {
    Pooled(rows, now, d) && ZeroRounds(rows, x, d) >= GIVE_UP_ROUNDS
  }

  predicate Held(rows: Rows, now: int, d: string) {
    Pooled(rows, now, d) && now - rows[d].enteredAt < MIN_HOLD_ROUNDS * ROUND
  }

  /** Whether a known domain takes part. */
  predicate Runs(rows: Rows, x: Input, now: int, d: string) {
    && x.isMeterable(d) && !Cooling(rows, now, d) && !Retired(rows, x, now, d)
    && (AggOf(x.aggs, d).bytes == 0 && x.meterable.Some? && !Pooled(rows, now, d) ==> Conns(x, d) >= MIN_TRIAL_CONNS)
  }

  function CandidateOf(rows: Rows, x: Input, now: int, d: string): Candidate {
    Candidate(d, AggOf(x.aggs, d).count, if Pooled(rows, now, d) then Weight(x, d) * SWAP_MARGIN else Weight(x, d), Held(rows, now, d))
  }

  predicate Known(rows: Rows, x: Input, now: int, d: string) {
    Pooled(rows, now, d) || exists a <- x.aggs :: a.domain == d
  }

  // ----- order

  predicate LessText(a: string, b: string) {
    b != "" && (a == "" || a[0] < b[0] || (a[0] == b[0] && LessText(a[1..], b[1..])))
  }

  /** Heavier first, then more connections, then by name. */
  predicate Better(a: Candidate, b: Candidate) {
    if a.weight != b.weight then a.weight > b.weight
    else if a.count != b.count then a.count > b.count
    else LessText(a.domain, b.domain)
  }

  function InsertCand(c: Candidate, s: seq<Candidate>): seq<Candidate> {
    if s == [] || Better(c, s[0]) then [c] + s else [s[0]] + InsertCand(c, s[1..])
  }

  /** Sorting is a library's; here by insertion. */
  function SortCands(s: seq<Candidate>): seq<Candidate> {
    if s == [] then [] else InsertCand(s[|s| - 1], SortCands(s[..|s| - 1]))
  }

  predicate DistinctDomains(s: seq<Candidate>) {
    forall i, j :: 0 <= i < j < |s| ==> s[i].domain != s[j].domain
  }

  predicate Ranked(s: seq<Candidate>) {
    forall i, j :: 0 <= i < j < |s| ==> Better(s[i], s[j])
  }

  lemma {:induction false} TextTotal(a: string, b: string)
    ensures a == b || LessText(a, b) || LessText(b, a)
  {
    if a != "" && b != "" && a[0] == b[0] {
      TextTotal(a[1..], b[1..]);
      assert a == [a[0]] + a[1..] && b == [b[0]] + b[1..];
    }
  }

  lemma {:induction false} TextTransitive(a: string, b: string, c: string)
    requires LessText(a, b) && LessText(b, c)
    ensures LessText(a, c)
  {
    if a != "" && a[0] == b[0] == c[0] {
      TextTransitive(a[1..], b[1..], c[1..]);
    }
  }

  lemma BetterTotal(a: Candidate, b: Candidate)
    requires a.domain != b.domain
    ensures Better(a, b) || Better(b, a)
  {
    TextTotal(a.domain, b.domain);
  }

  lemma BetterTransitive(a: Candidate, b: Candidate, c: Candidate)
    requires Better(a, b) && Better(b, c)
    ensures Better(a, c)
  {
    if LessText(a.domain, b.domain) && LessText(b.domain, c.domain) {
      TextTransitive(a.domain, b.domain, c.domain);
    }
  }

  lemma {:induction false} InsertRanked(c: Candidate, s: seq<Candidate>)
    requires Ranked(s) && forall y <- s :: y.domain != c.domain
    ensures Ranked(InsertCand(c, s)) && |InsertCand(c, s)| == |s| + 1
    ensures forall y :: y in InsertCand(c, s) <==> y == c || y in s
  {
    hide Better;
    if s != [] {
      assert s == [s[0]] + s[1..] && s[0] in s;
      assert forall y <- s[1..] :: y in s;
      if Better(c, s[0]) {
        forall j | 0 <= j < |s|
          ensures Better(c, s[j])
        {
          if j > 0 {
            BetterTransitive(c, s[0], s[j]);
          }
        }
      } else {
        BetterTotal(c, s[0]);
        InsertRanked(c, s[1..]);
        var rest := InsertCand(c, s[1..]);
        forall y | y in rest
          ensures Better(s[0], y)
        {
          if y != c {
            var i :| 0 <= i < |s[1..]| && s[1..][i] == y;
            assert s[i + 1] == y;
          }
        }
        ConsRanked(s[0], rest);
      }
    }
  }

  lemma ConsRanked(c: Candidate, s: seq<Candidate>)
    requires Ranked(s) && forall y <- s :: Better(c, y)
    ensures Ranked([c] + s)
  {
    assert forall i :: 0 <= i < |s| ==> s[i] in s;
  }

  lemma {:induction false} SortRanked(s: seq<Candidate>)
    requires DistinctDomains(s)
    ensures Ranked(SortCands(s)) && |SortCands(s)| == |s| && forall y :: y in SortCands(s) <==> y in s
  {
    hide Better;
    if s != [] {
      var front, last := s[..|s| - 1], s[|s| - 1];
      assert s == front + [last];
      SortRanked(front);
      forall y | y in front
        ensures y.domain != last.domain
      {
        var i :| 0 <= i < |front| && front[i] == y;
        assert s[i] == y;
      }
      InsertRanked(last, SortCands(front));
    }
  }

  // ----- candidates

  predicate DistinctAggs(aggs: seq<Agg>) {
    forall i, j :: 0 <= i < j < |aggs| ==> aggs[i].domain != aggs[j].domain
  }

  /** The domains that take part. */
  function Running(rows: Rows, x: Input, now: int): set<string> {
    set d | d in rows.Keys + (set a | a in x.aggs :: a.domain) && Known(rows, x, now, d) && Runs(rows, x, now, d)
  }

  ghost predicate ListsRunning(cands: seq<Candidate>, rows: Rows, x: Input, now: int) {
    && DistinctDomains(cands)
    && (forall c <- cands :: c.domain in Running(rows, x, now) && c == CandidateOf(rows, x, now, c.domain))
    && (forall d <- Running(rows, x, now) :: CandidateOf(rows, x, now, d) in cands)
  }

  method Weigh(rows: Rows, x: Input, now: int, d: string, avg: real) returns (c: Option<Candidate>)
    requires avg == AvgBytesPerConn(x.aggs)
    ensures c == if Runs(rows, x, now, d) then Some(CandidateOf(rows, x, now, d)) else None
  {
    if !x.isMeterable(d) {
      return None;
    }
    if Cooling(rows, now, d) || Retired(rows, x, now, d) {
      return None;
    }
    var a := AggOf(x.aggs, d);
    var pooled := Pooled(rows, now, d);
    var w := a.bytes as real;
    if a.bytes == 0 {
      var conns := a.count;
      if x.meterable.Some? {
        conns := if d in x.meterable.value then x.meterable.value[d] else 0;
        if !pooled && conns < MIN_TRIAL_CONNS {
          return None;
        }
      }
      w := Times(conns as real, avg);
    }
    var mustKeep := false;
    if pooled {
      w := w * SWAP_MARGIN;
      mustKeep := now - rows[d].enteredAt < MIN_HOLD_ROUNDS * ROUND;
    }
    return Some(Candidate(d, a.count, w, mustKeep));
  }

  method BuildCandidates(rows: Rows, x: Input, now: int) returns (cands: seq<Candidate>)
    requires DistinctAggs(x.aggs)
    ensures Ranked(cands) && ListsRunning(cands, rows, x, now)
  {
    var avg := AverageBytes(x.aggs);
    cands := [];
    hide Runs, CandidateOf, AvgBytesPerConn;
    for i := 0 to |x.aggs|
      invariant DistinctDomains(cands)
      invariant forall c <- cands :: exists j :: 0 <= j < i && c.domain == x.aggs[j].domain
      invariant forall c <- cands :: Runs(rows, x, now, c.domain) && c == CandidateOf(rows, x, now, c.domain)
      invariant forall j :: 0 <= j < i && Runs(rows, x, now, x.aggs[j].domain) ==> CandidateOf(rows, x, now, x.aggs[j].domain) in cands
    {
      var c := Weigh(rows, x, now, x.aggs[i].domain, avg);
      if c.Some? {
        NamedAfter(rows, x, now, x.aggs[i].domain);
        Appended(cands, c.value);
        cands := cands + [c.value];
      }
    }
    var rest := set d | d in rows && Pooled(rows, now, d) && forall a <- x.aggs :: a.domain != d;
    ghost var fromAggs := cands;
    while rest != {}
      invariant forall d <- rest :: d in rows && Pooled(rows, now, d) && forall a <- x.aggs :: a.domain != d
      invariant DistinctDomains(cands) && forall c <- cands :: c.domain !in rest
      invariant forall c <- cands :: Known(rows, x, now, c.domain) && Runs(rows, x, now, c.domain) && c == CandidateOf(rows, x, now, c.domain)
      invariant forall c <- fromAggs :: c in cands
      invariant forall d <- rows :: Pooled(rows, now, d) && (forall a <- x.aggs :: a.domain != d) && Runs(rows, x, now, d) ==>
        d in rest || CandidateOf(rows, x, now, d) in cands
      decreases |rest|
    {
      assert Element(rest) in rest;
      var d :| d in rest;
      var c := Weigh(rows, x, now, d, avg);
      if c.Some? {
        NamedAfter(rows, x, now, d);
        Appended(cands, c.value);
        cands := cands + [c.value];
      }
      rest := rest - {d};
    }
    AllListed(cands, rows, x, now);
    SortRanked(cands);
    Resorted(cands, SortCands(cands), rows, x, now);
    cands := SortCands(cands);
  }

  lemma NamedAfter(rows: Rows, x: Input, now: int, d: string)
    ensures CandidateOf(rows, x, now, d).domain == d
  {
  }

  lemma Appended(s: seq<Candidate>, c: Candidate)
    requires DistinctDomains(s) && forall y <- s :: y.domain != c.domain
    ensures DistinctDomains(s + [c]) && forall y :: y in s + [c] <==> y in s || y == c
  {
  }

  lemma AllListed(cands: seq<Candidate>, rows: Rows, x: Input, now: int)
    requires DistinctDomains(cands)
    requires forall c <- cands :: Known(rows, x, now, c.domain) && Runs(rows, x, now, c.domain) && c == CandidateOf(rows, x, now, c.domain)
    requires forall a <- x.aggs :: Runs(rows, x, now, a.domain) ==> CandidateOf(rows, x, now, a.domain) in cands
    requires forall d <- rows :: Pooled(rows, now, d) && (forall a <- x.aggs :: a.domain != d) && Runs(rows, x, now, d) ==>
      CandidateOf(rows, x, now, d) in cands
    ensures ListsRunning(cands, rows, x, now)
  {
    hide Runs, CandidateOf;
  }

  lemma Resorted(s: seq<Candidate>, t: seq<Candidate>, rows: Rows, x: Input, now: int)
    requires ListsRunning(s, rows, x, now) && |t| == |s| && Ranked(t) && forall y :: y in t <==> y in s
    ensures ListsRunning(t, rows, x, now)
  {
    hide Running, CandidateOf;
    forall i, j | 0 <= i < j < |t|
      ensures t[i].domain != t[j].domain
    {
      assert t[i] in t && t[j] in t;
      if t[i].domain == t[j].domain {
        assert t[i] == t[j];
        BetterStrict(t[i]);
      }
    }
  }

  lemma BetterStrict(c: Candidate)
    ensures !Better(c, c)
  {
    TextStrict(c.domain);
  }

  lemma {:induction false} TextStrict(a: string)
    ensures !LessText(a, a)
  {
    if a != "" {
      TextStrict(a[1..]);
    }
  }

  // ----- picking

  function HeldOf(s: seq<Candidate>): seq<Candidate> {
    if s == [] then [] else HeldOf(s[..|s| - 1]) + if s[|s| - 1].mustKeep then [s[|s| - 1]] else []
  }

  function FreeOf(s: seq<Candidate>): seq<Candidate> {
    if s == [] then [] else FreeOf(s[..|s| - 1]) + if s[|s| - 1].mustKeep then [] else [s[|s| - 1]]
  }

  /** Held ones first, each part in rank order. */
  function Queue(s: seq<Candidate>): seq<Candidate> {
    HeldOf(s) + FreeOf(s)
  }

  function Domains(s: seq<Candidate>): (r: seq<string>)
    ensures |r| == |s| && forall i :: 0 <= i < |r| ==> r[i] == s[i].domain
  {
    seq(|s|, i requires 0 <= i < |s| => s[i].domain)
  }

  function Front(s: seq<Candidate>, k: nat): seq<Candidate> {
    if |s| <= k then s else s[..k]
  }

  lemma {:induction false} QueueLists(s: seq<Candidate>)
    ensures |HeldOf(s)| + |FreeOf(s)| == |s|
    ensures forall c :: c in HeldOf(s) <==> c in s && c.mustKeep
    ensures forall c :: c in FreeOf(s) <==> c in s && !c.mustKeep
  {
    if s != [] {
      QueueLists(s[..|s| - 1]);
      assert s == s[..|s| - 1] + [s[|s| - 1]];
    }
  }

  /** Two passes: the held ones take their places, then the others by rank. The names are given in their own order. */
  method PickPool(cands: seq<Candidate>, k: nat) returns (result: seq<string>)
    requires DistinctDomains(cands)
    ensures multiset(result) == multiset(Domains(Front(Queue(cands), k)))
    ensures InOrder(result)
  {
    result := PickHeld(cands, k);
    HeldSeen(cands, result, k);
    hide HeldOf, FreeOf, DistinctDomains, Front, LessText;
    result := PickFree(cands, k, result);
    SortedNames(result);
    result := SortNames(result);
  }

  predicate InOrder(names: seq<string>) {
    forall i, j :: 0 <= i < j < |names| ==> !LessText(names[j], names[i])
  }

  function InsertName(d: string, s: seq<string>): seq<string> {
    if s == [] || !LessText(s[0], d) then [d] + s else [s[0]] + InsertName(d, s[1..])
  }

  function SortNames(s: seq<string>): seq<string> {
    if s == [] then [] else InsertName(s[|s| - 1], SortNames(s[..|s| - 1]))
  }

  lemma {:induction false} InsertedName(d: string, s: seq<string>)
    requires InOrder(s)
    ensures InOrder(InsertName(d, s)) && multiset(InsertName(d, s)) == multiset(s) + multiset{d}
  {
    hide LessText;
    if s != [] && LessText(s[0], d) {
      InsertedName(d, s[1..]);
      assert s == [s[0]] + s[1..];
      var r := InsertName(d, s[1..]);
      forall e | e in r
        ensures !LessText(e, s[0])
      {
        assert e in multiset(r);
        NotAfter(s[0], d);
        assert e != d ==> e in s[1..];
      }
    } else {
      forall e | e in s
        ensures !LessText(e, d)
      {
        if LessText(e, d) {
          var i :| 0 <= i < |s| && s[i] == e;
          LeastName(s[0], e, d);
        }
      }
    }
  }

  lemma NotAfter(a: string, b: string)
    requires LessText(a, b)
    ensures !LessText(b, a)
  {
    if LessText(b, a) {
      TextTransitive(a, b, a);
      TextStrict(a);
    }
  }

  lemma LeastName(least: string, e: string, d: string)
    requires !LessText(e, least) && LessText(e, d)
    ensures LessText(least, d)
  {
    TextTotal(least, e);
    if LessText(least, e) {
      TextTransitive(least, e, d);
    }
  }

  lemma {:induction false} SortedNames(s: seq<string>)
    ensures InOrder(SortNames(s)) && multiset(SortNames(s)) == multiset(s)
  {
    if s != [] {
      var front := s[..|s| - 1];
      SortedNames(front);
      InsertedName(s[|s| - 1], SortNames(front));
      assert s == front + [s[|s| - 1]];
      hide InOrder, InsertName;
    }
  }

  method PickHeld(cands: seq<Candidate>, k: nat) returns (result: seq<string>)
    ensures result == Domains(Front(HeldOf(cands), k))
  {
    result := [];
    ghost var picked: seq<Candidate> := [];
    for i := 0 to |cands|
      invariant result == Domains(picked) && picked == Front(HeldOf(cands[..i]), k)
    {
      assert cands[..i + 1][..i] == cands[..i];
      if |result| >= k {
        FullStays(cands, i, k);
        break;
      }
      if !cands[i].mustKeep {
        continue;
      }
      result := result + [cands[i].domain];
      picked := picked + [cands[i]];
    }
    assert cands[..|cands|] == cands;
  }

  method PickFree(cands: seq<Candidate>, k: nat, held: seq<string>) returns (result: seq<string>)
    requires DistinctDomains(cands) && held == Domains(Front(HeldOf(cands), k))
    requires |HeldOf(cands)| < k ==> SeenRight(cands, 0, held)
    ensures result == Domains(Front(Queue(cands), k))
  {
    result := held;
    ghost var picked := Front(HeldOf(cands), k);
    ghost var queue := HeldOf(cands);
    FreeStart(cands, k);
    hide HeldOf, FreeOf, DistinctDomains, Front, SeenRight;
    for i := 0 to |cands|
      invariant queue == HeldOf(cands) + FreeOf(cands[..i])
      invariant result == Domains(picked) && picked == Front(queue, k)
      invariant |HeldOf(cands)| < k ==> SeenRight(cands, i, result)
      invariant |result| < k ==> |HeldOf(cands)| < k
    {
      FreeStep(cands, i);
      if |result| >= k {
        FrontShort(queue, k);
        FullStaysFree(cands, i, k);
        break;
      }
      SeenStep(cands, i, result);
      if cands[i].domain in result {
        continue;
      }
      FrontStep(queue, k, cands[i]);
      result := result + [cands[i].domain];
      picked := picked + [cands[i]];
      queue := queue + [cands[i]];
    }
    assert cands[..|cands|] == cands;
  }

  lemma FrontShort(queue: seq<Candidate>, k: nat)
    ensures |Front(queue, k)| >= k ==> |queue| >= k
  {
  }

  lemma FrontStep(queue: seq<Candidate>, k: nat, c: Candidate)
    requires |Front(queue, k)| < k
    ensures Front(queue + [c], k) == Front(queue, k) + [c]
  {
  }

  /** From here on, what was picked already are exactly the held ones. */
  predicate SeenRight(cands: seq<Candidate>, i: nat, result: seq<string>) {
    forall j :: i <= j < |cands| ==> (cands[j].domain in result <==> cands[j].mustKeep)
  }

  lemma SeenStep(cands: seq<Candidate>, i: nat, result: seq<string>)
    requires DistinctDomains(cands) && i < |cands| && SeenRight(cands, i, result)
    ensures cands[i].domain in result <==> cands[i].mustKeep
    ensures SeenRight(cands, i + 1, result) && SeenRight(cands, i + 1, result + [cands[i].domain])
  {
  }

  lemma FreeStart(cands: seq<Candidate>, k: nat)
    ensures HeldOf(cands) == HeldOf(cands) + FreeOf(cands[..0])
    ensures |Front(HeldOf(cands), k)| < k ==> |HeldOf(cands)| < k
  {
    assert cands[..0] == [];
  }

  lemma FreeStep(cands: seq<Candidate>, i: nat)
    requires i < |cands|
    ensures FreeOf(cands[..i + 1]) == FreeOf(cands[..i]) + if cands[i].mustKeep then [] else [cands[i]]
    ensures HeldOf(cands) + FreeOf(cands[..i + 1]) ==
      HeldOf(cands) + FreeOf(cands[..i]) + if cands[i].mustKeep then [] else [cands[i]]
  {
    assert cands[..i + 1][..i] == cands[..i];
  }

  lemma FullStays(cands: seq<Candidate>, i: nat, k: nat)
    requires i <= |cands| && |HeldOf(cands[..i])| >= k
    ensures Front(HeldOf(cands[..i]), k) == Front(HeldOf(cands), k)
  {
    HeldPrefix(cands, i);
  }

  lemma {:induction false} HeldPrefix(cands: seq<Candidate>, i: nat)
    requires i <= |cands|
    ensures HeldOf(cands[..i]) <= HeldOf(cands) && FreeOf(cands[..i]) <= FreeOf(cands)
    decreases |cands|
  {
    if i < |cands| {
      HeldPrefix(cands[..|cands| - 1], i);
      assert cands[..|cands| - 1][..i] == cands[..i];
    } else {
      assert cands[..i] == cands;
    }
  }

  lemma FullStaysFree(cands: seq<Candidate>, i: nat, k: nat)
    requires i <= |cands| && |HeldOf(cands) + FreeOf(cands[..i])| >= k
    ensures Front(HeldOf(cands) + FreeOf(cands[..i]), k) == Front(Queue(cands), k)
  {
    HeldPrefix(cands, i);
  }

  lemma HeldSeen(cands: seq<Candidate>, result: seq<string>, k: nat)
    requires DistinctDomains(cands) && result == Domains(Front(HeldOf(cands), k))
    ensures |HeldOf(cands)| < k ==> SeenRight(cands, 0, result)
  {
    QueueLists(cands);
    var held := HeldOf(cands);
    hide HeldOf, FreeOf;
    if |held| < k {
      forall j | 0 <= j < |cands|
        ensures cands[j].domain in result <==> cands[j].mustKeep
      {
        if cands[j].mustKeep {
          assert cands[j] in held;
          var i :| 0 <= i < |held| && held[i] == cands[j];
          assert result[i] == cands[j].domain;
        }
        if cands[j].domain in result {
          var i :| 0 <= i < |result| && result[i] == cands[j].domain;
          assert held[i] in held;
          var n :| 0 <= n < |cands| && cands[n] == held[i];
        }
      }
    }
  }

  // ----- what weights mean

  /** The use of a listed domain is its entry's, that of another one nothing. */
  lemma {:induction false} UseOf(aggs: seq<Agg>, a: Agg)
    requires DistinctAggs(aggs) && a in aggs
    ensures AggOf(aggs, a.domain) == a
  {
    if aggs[|aggs| - 1] != a {
      var i :| 0 <= i < |aggs| && aggs[i] == a;
      assert aggs[..|aggs| - 1][i] == a;
      UseOf(aggs[..|aggs| - 1], a);
    }
  }

  /**
   A measured domain weighs its bytes. One not measured weighs its connections times the bytes per connection of the
   measured ones, which makes up all their bytes over all their connections.
   */
  lemma WeightExactly(x: Input, d: string)
    ensures AggOf(x.aggs, d).bytes > 0 ==> Weight(x, d) == AggOf(x.aggs, d).bytes as real
    ensures AggOf(x.aggs, d).bytes == 0 ==> Weight(x, d) == Conns(x, d) as real * AvgBytesPerConn(x.aggs)
    ensures MeasuredConns(x.aggs) > 0 ==>
      AvgBytesPerConn(x.aggs) * MeasuredConns(x.aggs) as real == MeasuredBytes(x.aggs) as real
    ensures MeasuredConns(x.aggs) == 0 ==> AvgBytesPerConn(x.aggs) == 0.0
  {
  }

  /** A domain that cannot be metered, cools down or carried nothing for too long does not take part, nor a new one that is hardly used. */
  lemma NotRunning(rows: Rows, x: Input, now: int, d: string)
    requires d in Running(rows, x, now)
    ensures x.isMeterable(d) && (d in rows ==> rows[d].cooldownUntil <= now)
    ensures d in rows && AggOf(x.aggs, d).bytes == 0 ==> rows[d].zeroRounds + 1 < 3
    ensures d !in rows && AggOf(x.aggs, d).bytes == 0 && x.meterable.Some? ==> d in x.meterable.value && x.meterable.value[d] >= 3
  {
  }
}
