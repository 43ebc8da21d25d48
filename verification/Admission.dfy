/** First come, first served: which sources of an inbound are kept when more are online than its limit. */
module Admission {
  import opened Collections

  /** A source address as the sixteen bytes it is compared by. */
  type Ip = int

  const REJECT_RETENTION := 300_000

  /** Times are milliseconds. */
  datatype Entry = Entry(firstSeen: int, lastActiveAt: int, conns: nat)

  datatype Aggregate = Aggregate(conns: nat, active: bool)

  /** One row of the list a round works on; a source already cut off is still listed, without connections. */
  datatype OnlineIp = OnlineIp(ip: Ip, firstSeen: int, conns: nat, idle: bool, banned: bool)

  // ----- choosing

  predicate Before(a: OnlineIp, b: OnlineIp) {
    a.firstSeen < b.firstSeen || (a.firstSeen == b.firstSeen && a.ip < b.ip)
  }

  predicate UniqueIps(list: seq<OnlineIp>) {
    forall i, j :: 0 <= i < j < |list| ==> list[i].ip != list[j].ip
  }

  function Insert(x: OnlineIp, s: seq<OnlineIp>): seq<OnlineIp> {
    if s == [] || Before(x, s[0]) then [x] + s else [s[0]] + Insert(x, s[1..])
  }

  /** Sorting by arrival is a library's; here by insertion. */
  function ByArrival(s: seq<OnlineIp>): seq<OnlineIp> {
    if s == [] then [] else Insert(s[|s| - 1], ByArrival(s[..|s| - 1]))
  }

  /** How many of the list come before a source. */
  function Rank(list: seq<OnlineIp>, x: OnlineIp): nat {
    if list == [] then 0
    else Rank(list[..|list| - 1], x) + if Before(list[|list| - 1], x) then 1 else 0
  }

  method SelectOverQuota(list: seq<OnlineIp>, limit: int) returns (over: seq<Ip>)
    requires UniqueIps(list)
    ensures forall ip :: ip in over <==> limit > 0 && exists x <- list :: x.ip == ip && Rank(list, x) >= limit
    ensures |over| == if limit <= 0 || |list| <= limit then 0 else |list| - limit
  {
    ArrivalRanks(list);
    var sorted := ByArrival(list);
    hide Rank, ByArrival, Before;
    if limit <= 0 || |list| <= limit {
      if limit > 0 {
        NobodyOver(list, limit);
      }
      return [];
    }
    over := [];
    for i := limit to |sorted|
      invariant |over| == i - limit
      invariant forall k :: 0 <= k < |over| ==> over[k] == sorted[limit + k].ip
    {
      over := over + [sorted[i].ip];
    }
    OverAreLate(list, limit, over);
  }

  method LiveOnly(list: seq<OnlineIp>) returns (live: seq<OnlineIp>)
    ensures live == LiveOf(list)
  {
    live := [];
    for i := 0 to |list|
      invariant live == LiveOf(list[..i])
    {
      assert list[..i + 1][..i] == list[..i];
      var e := list[i];
      if e.conns > 0 && !e.idle && !e.banned {
        live := live + [e];
      }
    }
    assert list[..|list|] == list;
  }

  predicate IsLive(e: OnlineIp) {
    e.conns > 0 && !e.idle && !e.banned
  }

  function LiveOf(list: seq<OnlineIp>): seq<OnlineIp> {
    if list == [] then []
    else LiveOf(list[..|list| - 1]) + if IsLive(list[|list| - 1]) then [list[|list| - 1]] else []
  }

  /** Sources cut off, idle or banned take no place and are never over the limit. */
  method PlanRejections(list: seq<OnlineIp>, limit: int) returns (over: seq<Ip>)
    requires UniqueIps(list)
    ensures forall ip :: ip in over <==> limit > 0 && exists x <- list :: x.ip == ip && IsLive(x) && Rank(LiveOf(list), x) >= limit
    ensures |over| == if limit <= 0 || |LiveOf(list)| <= limit then 0 else |LiveOf(list)| - limit
  {
    var live := LiveOnly(list);
    LiveListed(list);
    hide LiveOf, Rank;
    over := SelectOverQuota(live, limit);
  }

  lemma {:induction false} LiveListed(list: seq<OnlineIp>)
    requires UniqueIps(list)
    ensures UniqueIps(LiveOf(list)) && forall x :: x in LiveOf(list) <==> x in list && IsLive(x)
  {
    if list != [] {
      var front, last := list[..|list| - 1], list[|list| - 1];
      assert list == front + [last];
      LiveListed(front);
      LastIsNew(list);
      var f := LiveOf(front);
      if IsLive(last) {
        forall i | 0 <= i < |f|
          ensures f[i].ip != last.ip
        {
          assert f[i] in f;
        }
      }
    }
  }

  lemma LastIsNew(list: seq<OnlineIp>)
    requires list != [] && UniqueIps(list)
    ensures forall x <- list[..|list| - 1] :: x.ip != list[|list| - 1].ip
  {
    var front := list[..|list| - 1];
    forall x | x in front
      ensures x.ip != list[|list| - 1].ip
    {
      var i :| 0 <= i < |front| && front[i] == x;
      assert list[i] == x;
    }
  }

  // ----- ranks are positions

  predicate Arrived(s: seq<OnlineIp>) {
    forall i, j :: 0 <= i < j < |s| ==> Before(s[i], s[j])
  }

  lemma {:induction false} RankSplit(xs: seq<OnlineIp>, ys: seq<OnlineIp>, x: OnlineIp)
    ensures Rank(xs + ys, x) == Rank(xs, x) + Rank(ys, x)
    decreases |ys|
  {
    if ys == [] {
      assert xs + ys == xs;
    } else {
      RankSplit(xs, ys[..|ys| - 1], x);
      assert (xs + ys)[..|xs + ys| - 1] == xs + ys[..|ys| - 1];
    }
  }

  lemma RankOne(a: OnlineIp, x: OnlineIp)
    ensures Rank([a], x) == if Before(a, x) then 1 else 0
  {
    assert [a][..0] == [];
  }

  lemma {:induction false} InsertRank(x: OnlineIp, s: seq<OnlineIp>, z: OnlineIp)
    ensures Rank(Insert(x, s), z) == Rank(s, z) + if Before(x, z) then 1 else 0
  {
    hide Rank;
    RankOne(x, z);
    RankSplit([x], s, z);
    if s != [] && !Before(x, s[0]) {
      InsertRank(x, s[1..], z);
      RankSplit([s[0]], s[1..], z);
      RankSplit([s[0]], Insert(x, s[1..]), z);
      assert s == [s[0]] + s[1..];
    }
  }

  lemma {:induction false} InsertSorted(x: OnlineIp, s: seq<OnlineIp>)
    requires Arrived(s) && forall y <- s :: y.ip != x.ip
    ensures Arrived(Insert(x, s)) && |Insert(x, s)| == |s| + 1
    ensures forall y :: y in Insert(x, s) <==> y == x || y in s
  {
    if s != [] {
      assert s == [s[0]] + s[1..] && s[0] in s;
      assert forall y <- s[1..] :: y in s;
      if Before(x, s[0]) {
        PrependArrived(x, s);
      } else {
        InsertSorted(x, s[1..]);
        var rest := Insert(x, s[1..]);
        forall y | y in rest
          ensures Before(s[0], y)
        {
          if y != x {
            var i :| 0 <= i < |s[1..]| && s[1..][i] == y;
            assert s[i + 1] == y;
          }
        }
        ConsArrived(s[0], rest);
      }
    }
  }

  lemma PrependArrived(x: OnlineIp, s: seq<OnlineIp>)
    requires s != [] && Arrived(s) && Before(x, s[0])
    ensures Arrived([x] + s)
  {
  }

  lemma ConsArrived(x: OnlineIp, s: seq<OnlineIp>)
    requires Arrived(s) && forall y <- s :: Before(x, y)
    ensures Arrived([x] + s)
  {
    assert forall i :: 0 <= i < |s| ==> s[i] in s;
  }

  lemma {:induction false} SortRanks(list: seq<OnlineIp>)
    requires UniqueIps(list)
    ensures Arrived(ByArrival(list)) && |ByArrival(list)| == |list|
    ensures forall y :: y in ByArrival(list) <==> y in list
    ensures forall z :: Rank(ByArrival(list), z) == Rank(list, z)
  {
    if list != [] {
      var front, last := list[..|list| - 1], list[|list| - 1];
      assert list == front + [last];
      SortRanks(front);
      LastIsNew(list);
      InsertSorted(last, ByArrival(front));
      forall z
        ensures Rank(ByArrival(list), z) == Rank(list, z)
      {
        InsertRank(last, ByArrival(front), z);
      }
    }
  }

  lemma {:induction false} RankInSorted(s: seq<OnlineIp>, n: nat, i: nat)
    requires Arrived(s) && n <= |s| && i < |s|
    ensures Rank(s[..n], s[i]) == if n <= i then n else i
    decreases n
  {
    if n > 0 {
      assert s[..n][..n - 1] == s[..n - 1];
      RankInSorted(s, n - 1, i);
      if n - 1 > i {
        assert Before(s[i], s[n - 1]);
      } else if n - 1 < i {
        assert Before(s[n - 1], s[i]);
      }
    }
  }

  /** In the sorted list every source stands at its rank. */
  lemma ArrivalRanks(list: seq<OnlineIp>)
    requires UniqueIps(list)
    ensures var s := ByArrival(list);
      && |s| == |list| && (forall y :: y in s <==> y in list)
      && forall i :: 0 <= i < |s| ==> Rank(list, s[i]) == i
  {
    var s := ByArrival(list);
    SortRanks(list);
    forall i | 0 <= i < |s|
      ensures Rank(list, s[i]) == i
    {
      RankInSorted(s, |s|, i);
      assert s[..|s|] == s;
    }
  }

  lemma NobodyOver(list: seq<OnlineIp>, limit: int)
    requires UniqueIps(list) && |list| <= limit
    ensures forall x <- list :: Rank(list, x) < limit
  {
    ArrivalRanks(list);
    var s := ByArrival(list);
    hide Rank, ByArrival;
    forall x | x in list
      ensures Rank(list, x) < limit
    {
      var i :| 0 <= i < |s| && s[i] == x;
    }
  }

  lemma OverAreLate(list: seq<OnlineIp>, limit: int, over: seq<Ip>)
    requires UniqueIps(list) && 0 < limit < |list| && |over| == |list| - limit
    requires var s := ByArrival(list); |s| == |list| && forall k :: 0 <= k < |over| ==> over[k] == s[limit + k].ip
    ensures forall ip :: ip in over <==> exists x <- list :: x.ip == ip && Rank(list, x) >= limit
  {
    ArrivalRanks(list);
    var s := ByArrival(list);
    hide Rank, ByArrival;
    forall ip
      ensures ip in over <==> exists x <- list :: x.ip == ip && Rank(list, x) >= limit
    {
      if ip in over {
        var k :| 0 <= k < |over| && over[k] == ip;
        assert s[limit + k] in s;
      }
      if x :| x in list && x.ip == ip && Rank(list, x) >= limit {
        var i :| 0 <= i < |s| && s[i] == x;
        assert over[i - limit] == ip;
      }
    }
  }

  // ----- who is online

  /** One inbound's sources, who is rejected now, and when sources were rejected last. */
  datatype Presence = Presence(ips: map<Ip, Entry>, rejectedNow: set<Ip>, rejectedAt: map<Ip, int>)

  /** What a round is decided by besides the sources. */
  datatype Terms = Terms(now: int, idleAfter: int, banned: set<Ip>, limit: int)

  /** First sight counts as activity; a source keeps its first sight for as long as it stays. */
  function NextEntry(ips: map<Ip, Entry>, ip: Ip, a: Aggregate, now: int): Entry {
    if ip in ips then Entry(ips[ip].firstSeen, if a.active then now else ips[ip].lastActiveAt, a.conns)
    else Entry(now, now, a.conns)
  }

  function Sampled(p: Presence, aggs: map<Ip, Aggregate>, now: int): Presence {
    p.(ips := map ip | ip in aggs :: NextEntry(p.ips, ip, aggs[ip], now))
  }

  predicate Idle(e: Entry, t: Terms) {
    t.idleAfter > 0 && t.now - e.lastActiveAt > t.idleAfter
  }

  predicate Live(p: Presence, t: Terms, ip: Ip) {
    ip in p.ips && p.ips[ip].conns > 0 && !Idle(p.ips[ip], t) && ip !in t.banned
  }

  predicate Precedes(p: Presence, a: Ip, b: Ip)
    requires a in p.ips && b in p.ips
  {
    p.ips[a].firstSeen < p.ips[b].firstSeen || (p.ips[a].firstSeen == p.ips[b].firstSeen && a < b)
  }

  /** The live sources that came before one. */
  function Ahead(p: Presence, t: Terms, ip: Ip): set<Ip>
    requires ip in p.ips
  {
    set x | x in p.ips && Live(p, t, x) && Precedes(p, x, ip)
  }

  predicate Admitted(p: Presence, t: Terms, ip: Ip) {
    Live(p, t, ip) && (t.limit <= 0 || |Ahead(p, t, ip)| < t.limit)
  }

  function ListedLive(p: Presence, t: Terms, ip: Ip): OnlineIp
    requires ip in p.ips
  {
    OnlineIp(ip, p.ips[ip].firstSeen, p.ips[ip].conns, Idle(p.ips[ip], t), ip in t.banned)
  }

  /** The list shown and decided on: every source, and the ones rejected lately that are no longer connected. */
  ghost predicate Lists(p: Presence, t: Terms, list: seq<OnlineIp>) {
    && UniqueIps(list)
    && (forall e <- list :: e.ip in p.ips ==> e == ListedLive(p, t, e.ip))
    && (forall e <- list :: e.ip !in p.ips ==> e.conns == 0)
    && (forall ip <- p.ips :: exists e <- list :: e.ip == ip)
  }

  class Tracker {
    var ips: map<Ip, Entry>
    var rejectedNow: set<Ip>
    var rejectedAt: map<Ip, int>

    ghost function Contents(): Presence
      reads this
    {
      Presence(ips, rejectedNow, rejectedAt)
    }

    constructor ()
      ensures Contents() == Presence(map[], {}, map[])
    {
      ips, rejectedNow, rejectedAt := map[], {}, map[];
    }

    /** Sources of this round are entered or refreshed; the others leave at once. */
    method Sample(aggs: map<Ip, Aggregate>, now: int)
      modifies this
      ensures Contents() == Sampled(old(Contents()), aggs, now)
    {
      ips := ips + map ip | ip in aggs && ip !in ips :: Entry(now, now, 0);
      ips := map ip | ip in ips ::
        if ip in aggs then Entry(ips[ip].firstSeen, if aggs[ip].active then now else ips[ip].lastActiveAt, aggs[ip].conns) else ips[ip];
      ips := ips - (ips.Keys - aggs.Keys);
    }

    method SetRejected(over: seq<Ip>, now: int)
      modifies this`rejectedNow, this`rejectedAt
      ensures forall ip :: ip in rejectedNow <==> ip in over
      ensures forall ip :: ip in rejectedAt <==> ip in over || (ip in old(rejectedAt) && now - old(rejectedAt)[ip] <= REJECT_RETENTION)
      ensures forall ip :: ip in rejectedAt ==> rejectedAt[ip] == if ip in over then now else old(rejectedAt)[ip]
    {
      rejectedNow := set ip | ip in over;
      rejectedAt := rejectedAt + map ip | ip in over :: now;
      rejectedAt := map ip | ip in rejectedAt && now - rejectedAt[ip] <= REJECT_RETENTION :: rejectedAt[ip];
    }

    /** Every source with its state; bans are not looked at here. */
    method Snapshot(t: Terms) returns (list: seq<OnlineIp>)
      ensures Lists(Contents(), t.(banned := {}), list)
    {
      ghost var bare := t.(banned := {});
      list := [];
      var keys := ips.Keys;
      while keys != {}
        invariant keys <= ips.Keys && UniqueIps(list)
        invariant forall e <- list :: e.ip in ips && e.ip !in keys && e == ListedLive(Contents(), bare, e.ip)
        invariant forall ip <- ips :: ip in keys || exists e <- list :: e.ip == ip
        decreases |keys|
      {
        ghost var some := Element(keys);
        var ip :| ip in keys;
        var e := OnlineIp(ip, ips[ip].firstSeen, ips[ip].conns, Idle(ips[ip], t), false);
        Extended(list, e);
        list := list + [e];
        keys := keys - {ip};
      }
      var gone := rejectedAt.Keys - ips.Keys;
      while gone != {}
        invariant gone <= rejectedAt.Keys - ips.Keys && UniqueIps(list)
        invariant forall e <- list :: e.ip !in gone
        invariant Lists(Contents(), bare, list)
        decreases |gone|
      {
        ghost var some := Element(gone);
        var ip :| ip in gone;
        var e := OnlineIp(ip, 0, 0, false, false);
        Extended(list, e);
        list := list + [e];
        gone := gone - {ip};
      }
    }

    /** Bans are marked, and banned sources that are not connected are listed as well. */
    method MarkBanned(list: seq<OnlineIp>, t: Terms, bans: set<Ip>) returns (marked: seq<OnlineIp>)
      requires Lists(Contents(), t.(banned := {}), list)
      ensures Lists(Contents(), t.(banned := bans), marked)
    {
      ghost var t' := t.(banned := bans);
      marked := [];
      for i := 0 to |list|
        invariant |marked| == i
        invariant forall j :: 0 <= j < i ==> marked[j] == list[j].(banned := list[j].banned || list[j].ip in bans)
      {
        marked := marked + [list[i].(banned := list[i].banned || list[i].ip in bans)];
      }
      MarkedLists(Contents(), t.(banned := {}), bans, list, marked);
      var rest := bans - set e | e in marked :: e.ip;
      while rest != {}
        invariant rest <= bans && (forall e <- marked :: e.ip !in rest)
        invariant Lists(Contents(), t', marked)
        invariant forall ip <- rest :: ip !in ips
        decreases |rest|
      {
        ghost var some := Element(rest);
        var ip :| ip in rest;
        var e := OnlineIp(ip, 0, 0, false, true);
        Extended(marked, e);
        marked := marked + [e];
        rest := rest - {ip};
      }
    }

    /** One round for one inbound: exactly the live sources that are not admitted are rejected. */
    method Enforce(t: Terms) returns (over: seq<Ip>)
      modifies this`rejectedNow, this`rejectedAt
      ensures forall ip :: ip in over <==> Live(old(Contents()), t, ip) && !Admitted(old(Contents()), t, ip)
      ensures forall ip :: ip in rejectedNow <==> ip in over
      ensures ips == old(ips)
    {
      var list := Snapshot(t);
      if t.banned != {} {
        list := MarkBanned(list, t, t.banned);
      }
      over := PlanRejections(list, t.limit);
      ghost var p := Contents();
      RejectedAreOver(p, t, list, over);
      SetRejected(over, t.now);
    }
  }

  lemma Extended(list: seq<OnlineIp>, e: OnlineIp)
    requires UniqueIps(list) && forall x <- list :: x.ip != e.ip
    ensures UniqueIps(list + [e]) && forall x :: x in list + [e] <==> x in list || x == e
  {
  }

  lemma MarkedLists(p: Presence, t: Terms, bans: set<Ip>, list: seq<OnlineIp>, marked: seq<OnlineIp>)
    requires t.banned == {} && Lists(p, t, list) && |marked| == |list|
    requires forall j :: 0 <= j < |list| ==> marked[j] == list[j].(banned := list[j].banned || list[j].ip in bans)
    ensures Lists(p, t.(banned := bans), marked)
  {
    forall ip | ip in p.ips
      ensures exists e <- marked :: e.ip == ip
    {
      var e :| e in list && e.ip == ip;
      var j :| 0 <= j < |list| && list[j] == e;
      assert marked[j] in marked;
    }
    forall e | e in marked
      ensures e.ip in p.ips ==> e == ListedLive(p, t.(banned := bans), e.ip)
      ensures e.ip !in p.ips ==> e.conns == 0
    {
      var j :| 0 <= j < |marked| && marked[j] == e;
      assert list[j] in list;
    }
  }

  // ----- ranks in the list are the live sources ahead

  function IpsBefore(list: seq<OnlineIp>, x: OnlineIp): set<Ip> {
    set e | e in list && Before(e, x) :: e.ip
  }

  lemma {:induction false} RankIsCount(list: seq<OnlineIp>, x: OnlineIp)
    requires UniqueIps(list)
    ensures |IpsBefore(list, x)| == Rank(list, x)
  {
    if list != [] {
      var front, last := list[..|list| - 1], list[|list| - 1];
      assert list == front + [last];
      RankIsCount(front, x);
      LastIsNew(list);
      assert last.ip !in IpsBefore(front, x);
      assert IpsBefore(list, x) == IpsBefore(front, x) + if Before(last, x) then {last.ip} else {};
    }
  }

  lemma LiveRank(p: Presence, t: Terms, list: seq<OnlineIp>, ip: Ip)
    requires Lists(p, t, list) && ip in p.ips
    ensures Rank(LiveOf(list), ListedLive(p, t, ip)) == |Ahead(p, t, ip)|
  {
    LiveListed(list);
    var live, x := LiveOf(list), ListedLive(p, t, ip);
    hide LiveOf, Rank, UniqueIps;
    RankIsCount(live, x);
    forall y
      ensures y in IpsBefore(live, x) <==> y in Ahead(p, t, ip)
    {
      if y in Ahead(p, t, ip) {
        var e :| e in list && e.ip == y;
        assert e in live && Before(e, x);
      }
    }
    assert IpsBefore(live, x) == Ahead(p, t, ip);
  }

  lemma RejectedAreOver(p: Presence, t: Terms, list: seq<OnlineIp>, over: seq<Ip>)
    requires Lists(p, t, list)
    requires forall ip :: ip in over <==> t.limit > 0 && exists x <- list :: x.ip == ip && IsLive(x) && Rank(LiveOf(list), x) >= t.limit
    ensures forall ip :: ip in over <==> Live(p, t, ip) && !Admitted(p, t, ip)
  {
    hide LiveOf, Rank, UniqueIps, Ahead;
    forall ip
      ensures ip in over <==> Live(p, t, ip) && !Admitted(p, t, ip)
    {
      if ip in p.ips {
        LiveRank(p, t, list, ip);
        var e :| e in list && e.ip == ip;
        assert e == ListedLive(p, t, ip) && (IsLive(e) <==> Live(p, t, ip));
      }
    }
  }

  // ----- stability

  datatype Round = Round(aggs: map<Ip, Aggregate>, now: int)

  function AfterRounds(p: Presence, rounds: seq<Round>): Presence {
    if rounds == [] then p
    else Sampled(AfterRounds(p, rounds[..|rounds| - 1]), rounds[|rounds| - 1].aggs, rounds[|rounds| - 1].now)
  }

  /** Samples come at later and later moments, all later than every first sight so far. */
  predicate Later(p: Presence, rounds: seq<Round>) {
    && (forall ip <- p.ips, r <- rounds :: p.ips[ip].firstSeen < r.now)
    && (forall i, j :: 0 <= i < j < |rounds| ==> rounds[i].now < rounds[j].now)
  }

  predicate Stays(ip: Ip, rounds: seq<Round>) {
    forall r <- rounds :: ip in r.aggs
  }

  predicate Older(p: Presence, q: Presence, b: Ip) {
    b in p.ips && b in q.ips && q.ips[b].firstSeen == p.ips[b].firstSeen
  }

  /** A source that stays keeps its first sight, and whoever precedes it at the end preceded it at the start. */
  lemma {:induction false} NobodyCutsIn(p: Presence, rounds: seq<Round>, a: Ip)
    requires a in p.ips && Later(p, rounds) && Stays(a, rounds)
    ensures var q := AfterRounds(p, rounds);
      && a in q.ips && q.ips[a].firstSeen == p.ips[a].firstSeen
      && (forall b <- q.ips :: Older(p, q, b) || (rounds != [] && p.ips[a].firstSeen < q.ips[b].firstSeen <= rounds[|rounds| - 1].now))
  {
    if rounds != [] {
      var front, r := rounds[..|rounds| - 1], rounds[|rounds| - 1];
      assert r in rounds && forall x <- front :: x in rounds;
      NobodyCutsIn(p, front, a);
      if front != [] {
        assert front[|front| - 1] == rounds[|rounds| - 2];
      }
    }
  }

  /** The sources there from the start, and ever since, that precede one and are live at the end. */
  function OldAhead(p: Presence, rounds: seq<Round>, t: Terms, a: Ip): set<Ip>
    requires a in p.ips
  {
    var q := AfterRounds(p, rounds);
    set b | b in p.ips && Precedes(p, b, a) && Older(p, q, b) && Live(q, t, b)
  }

  /** Newcomers never come before a source that stays: ahead of it are only sources that were there already. */
  lemma NewcomersBehind(p: Presence, rounds: seq<Round>, t: Terms, a: Ip)
    requires a in p.ips && Later(p, rounds) && Stays(a, rounds)
    ensures a in AfterRounds(p, rounds).ips && Ahead(AfterRounds(p, rounds), t, a) == OldAhead(p, rounds, t, a)
  {
    NobodyCutsIn(p, rounds, a);
    hide AfterRounds, Later, Stays, Idle;
  }

  /**
   Exactly who is kept: a source that stays and is live is admitted later, whatever newcomers arrive, if and only if
   fewer than the limit of the sources that preceded it from the start take part.
   */
  lemma KeptExactly(p: Presence, rounds: seq<Round>, t: Terms, a: Ip)
    requires a in p.ips && Later(p, rounds) && Stays(a, rounds)
    requires Live(AfterRounds(p, rounds), t, a)
    ensures Admitted(AfterRounds(p, rounds), t, a) <==> t.limit <= 0 || |OldAhead(p, rounds, t, a)| < t.limit
  {
    NewcomersBehind(p, rounds, t, a);
    hide AfterRounds, Later, Stays, Ahead, OldAhead;
  }

  /**
   An admitted source that stays, is active and not banned is sent away under a limit that does not drop if and only if
   enough of the older sources that took no part when it was admitted, being idle or banned, take part again: as many as
   fill the places that the older sources still live since then leave.
   */
  lemma DisplacedExactly(p: Presence, t: Terms, rounds: seq<Round>, t': Terms, a: Ip)
    requires Admitted(p, t, a) && Later(p, rounds) && Stays(a, rounds)
    requires 0 < t.limit <= t'.limit && Live(AfterRounds(p, rounds), t', a)
    ensures var back, kept := OldAhead(p, rounds, t', a) - Ahead(p, t, a), OldAhead(p, rounds, t', a) * Ahead(p, t, a);
      && |kept| < t.limit
      && (!Admitted(AfterRounds(p, rounds), t', a) <==> |back| >= t'.limit - |kept|)
      && (forall b <- back :: b in p.ips && Precedes(p, b, a) && !Live(p, t, b))
  {
    KeptExactly(p, rounds, t', a);
    var all, before := OldAhead(p, rounds, t', a), Ahead(p, t, a);
    assert forall b <- all - before :: b in p.ips && Precedes(p, b, a) && !Live(p, t, b);
    hide AfterRounds, Later, Stays, Ahead, OldAhead;
    SubsetCard(all * before, before);
    assert all == (all - before) + all * before;
  }

  /** So without such a return nobody admitted is sent away. */
  lemma OnlyReturnersDisplace(p: Presence, t: Terms, rounds: seq<Round>, t': Terms, a: Ip)
    requires Admitted(p, t, a) && Later(p, rounds) && Stays(a, rounds)
    requires t'.limit <= 0 || 0 < t.limit <= t'.limit
    requires Live(AfterRounds(p, rounds), t', a)
    requires forall b <- p.ips :: Precedes(p, b, a) && Live(AfterRounds(p, rounds), t', b) ==> Live(p, t, b)
    ensures Admitted(AfterRounds(p, rounds), t', a)
  {
    KeptExactly(p, rounds, t', a);
    if t'.limit > 0 {
      assert OldAhead(p, rounds, t', a) <= Ahead(p, t, a);
      SubsetCard(OldAhead(p, rounds, t', a), Ahead(p, t, a));
    }
  }

  /** Such a return does displace: with a limit of one, an older source that was idle sends the younger one away. */
  lemma ReturnerDisplaces(p: Presence, t: Terms, r: Round, t': Terms)
    requires p == Presence(map[1 := Entry(0, 0, 1), 2 := Entry(50, 100, 1)], {}, map[])
    requires t == Terms(100, 30, {}, 1) && t' == Terms(110, 30, {}, 1)
    requires r == Round(map[1 := Aggregate(1, true), 2 := Aggregate(1, true)], 110)
    ensures Admitted(p, t, 2) && Live(AfterRounds(p, [r]), t', 2) && !Admitted(AfterRounds(p, [r]), t', 2)
  {
    var q := AfterRounds(p, [r]);
    assert [r][..0] == [] && AfterRounds(p, []) == p;
    assert q == Sampled(p, r.aggs, 110);
    assert Ahead(p, t, 2) == {};
    assert 1 in Ahead(q, t', 2);
    SubsetCard({1}, Ahead(q, t', 2));
  }

  /** As many sources are admitted as the limit allows or as are live, and they are the earliest. */
  lemma ExactlyTheEarliest(p: Presence, t: Terms, list: seq<OnlineIp>)
    requires Lists(p, t, list) && t.limit > 0
    ensures var live, admitted := set ip | ip in p.ips && Live(p, t, ip), set ip | ip in p.ips && Admitted(p, t, ip);
      && |admitted| == (if |live| < t.limit then |live| else t.limit)
      && (forall a <- admitted, b <- live :: b !in admitted ==> Precedes(p, a, b))
  {
    var s := ByArrival(LiveOf(list));
    LivePositions(p, t, list, s);
    var n := if |s| < t.limit then |s| else t.limit;
    hide Lists, LiveOf, ByArrival, Ahead, Precedes;
    PrefixCards(s, |s|);
    PrefixCards(s, n);
    assert (set ip | ip in p.ips && Live(p, t, ip)) == set i | 0 <= i < |s| :: s[i].ip;
    assert (set ip | ip in p.ips && Admitted(p, t, ip)) == set i | 0 <= i < n :: s[i].ip;
    forall a, b | a in p.ips && b in p.ips && Admitted(p, t, a) && Live(p, t, b) && !Admitted(p, t, b)
      ensures Precedes(p, a, b)
    {
      AdmittedPrecede(p, t, a, b);
    }
  }

  lemma AdmittedPrecede(p: Presence, t: Terms, a: Ip, b: Ip)
    requires t.limit > 0 && Admitted(p, t, a) && Live(p, t, b) && !Admitted(p, t, b)
    ensures Precedes(p, a, b)
  {
    if Precedes(p, b, a) {
      hide Idle;
      forall x | x in Ahead(p, t, b)
        ensures x in Ahead(p, t, a)
      {
      }
      SubsetCard(Ahead(p, t, b), Ahead(p, t, a));
    }
  }

  /** The sorted live list: every live source once, at the position that says how many are ahead of it. */
  lemma LivePositions(p: Presence, t: Terms, list: seq<OnlineIp>, s: seq<OnlineIp>)
    requires Lists(p, t, list) && s == ByArrival(LiveOf(list))
    ensures Arrived(s) && UniqueIps(s)
    ensures forall i :: 0 <= i < |s| ==> s[i].ip in p.ips && Live(p, t, s[i].ip) && |Ahead(p, t, s[i].ip)| == i
    ensures forall ip :: ip in p.ips && Live(p, t, ip) ==> exists i :: 0 <= i < |s| && s[i].ip == ip
  {
    LiveListed(list);
    ArrivalRanks(LiveOf(list));
    SortRanks(LiveOf(list));
    hide LiveOf, Rank, ByArrival, Ahead, Idle;
    forall i | 0 <= i < |s|
      ensures s[i].ip in p.ips && Live(p, t, s[i].ip) && |Ahead(p, t, s[i].ip)| == i
    {
      assert s[i] in s && s[i] in list;
      LiveRank(p, t, list, s[i].ip);
    }
    forall ip | ip in p.ips && Live(p, t, ip)
      ensures exists i :: 0 <= i < |s| && s[i].ip == ip
    {
      var e :| e in list && e.ip == ip;
      assert e in s;
    }
    PositionsDistinct(p, t, s);
  }

  lemma PositionsDistinct(p: Presence, t: Terms, s: seq<OnlineIp>)
    requires forall i :: 0 <= i < |s| ==> s[i].ip in p.ips && |Ahead(p, t, s[i].ip)| == i
    ensures UniqueIps(s)
  {
    hide Ahead;
    forall i, j | 0 <= i < j < |s|
      ensures s[i].ip != s[j].ip
    {
      assert |Ahead(p, t, s[i].ip)| != |Ahead(p, t, s[j].ip)|;
    }
  }

  lemma {:induction false} PrefixCards(s: seq<OnlineIp>, n: nat)
    requires n <= |s| && UniqueIps(s)
    ensures |set i | 0 <= i < n :: s[i].ip| == n
  {
    if n > 0 {
      PrefixCards(s, n - 1);
      var before := set i | 0 <= i < n - 1 :: s[i].ip;
      assert s[n - 1].ip !in before;
      assert (set i | 0 <= i < n :: s[i].ip) == before + {s[n - 1].ip};
    }
  }

  // ----- activity and idleness

  /** The last moment at which a source that stays was active: its last active round, or what was noted before. */
  function LastActive(before: int, rounds: seq<Round>, ip: Ip): int
    requires Stays(ip, rounds)
  {
    if rounds == [] then before
    else
      var front, r := rounds[..|rounds| - 1], rounds[|rounds| - 1];
      assert r in rounds && forall x <- front :: x in rounds;
      if r.aggs[ip].active then r.now else LastActive(before, front, ip)
  }

  lemma {:induction false} ActivityNoted(p: Presence, rounds: seq<Round>, ip: Ip)
    requires ip in p.ips && Stays(ip, rounds)
    ensures ip in AfterRounds(p, rounds).ips
    ensures AfterRounds(p, rounds).ips[ip].lastActiveAt == LastActive(p.ips[ip].lastActiveAt, rounds, ip)
  {
    if rounds != [] {
      var front, r := rounds[..|rounds| - 1], rounds[|rounds| - 1];
      assert r in rounds && forall x <- front :: x in rounds;
      ActivityNoted(p, front, ip);
    }
  }

  predicate Ordered(rounds: seq<Round>) {
    forall i, j :: 0 <= i < j < |rounds| ==> rounds[i].now < rounds[j].now
  }

  lemma LatestRound(rounds: seq<Round>)
    requires rounds != [] && Ordered(rounds)
    ensures Ordered(rounds[..|rounds| - 1])
    ensures forall r <- rounds[..|rounds| - 1] :: r in rounds && r.now < rounds[|rounds| - 1].now
    ensures forall r <- rounds :: r in rounds[..|rounds| - 1] || r == rounds[|rounds| - 1]
  {
    var front := rounds[..|rounds| - 1];
    assert rounds == front + [rounds[|rounds| - 1]];
    forall r | r in front
      ensures r.now < rounds[|rounds| - 1].now
    {
      var i :| 0 <= i < |front| && front[i] == r;
      assert rounds[i] == r;
    }
  }

  lemma {:induction false} LastActiveExactly(before: int, rounds: seq<Round>, ip: Ip, since: int)
    requires Stays(ip, rounds) && Ordered(rounds) && forall r <- rounds :: before <= r.now
    ensures LastActive(before, rounds, ip) < since <==>
      before < since && forall r <- rounds :: r.aggs[ip].active ==> r.now < since
  {
    if rounds != [] {
      var front, r := rounds[..|rounds| - 1], rounds[|rounds| - 1];
      LatestRound(rounds);
      hide Ordered;
      assert r in rounds;
      LastActiveExactly(before, front, ip, since);
    }
  }

  /**
   A source that stays is idle exactly if a limit is set and neither the activity noted before nor any active round
   falls within it.
   */
  lemma IdleExactly(p: Presence, rounds: seq<Round>, t: Terms, ip: Ip)
    requires ip in p.ips && Later(p, rounds) && Stays(ip, rounds)
    requires forall r <- rounds :: p.ips[ip].lastActiveAt <= r.now
    ensures ip in AfterRounds(p, rounds).ips
    ensures Idle(AfterRounds(p, rounds).ips[ip], t) <==>
      && t.idleAfter > 0 && p.ips[ip].lastActiveAt < t.now - t.idleAfter
      && forall r <- rounds :: r.aggs[ip].active ==> r.now < t.now - t.idleAfter
  {
    ActivityNoted(p, rounds, ip);
    LastActiveExactly(p.ips[ip].lastActiveAt, rounds, ip, t.now - t.idleAfter);
    hide AfterRounds, LastActive;
  }

  /** A source counts as active at first sight. */
  lemma FirstSightActive(p: Presence, r: Round, ip: Ip)
    requires ip in r.aggs && ip !in p.ips
    ensures ip in Sampled(p, r.aggs, r.now).ips
    ensures Sampled(p, r.aggs, r.now).ips[ip] == Entry(r.now, r.now, r.aggs[ip].conns)
  {
  }
}
