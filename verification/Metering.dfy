/** The metering overlay: cloned default outbounds and the rules that count bytes through them. */
module Metering {
  import opened Collections
  import opened Json
  import opened MeterTags
  import opened Router

  datatype MeterEntry = MeterEntry(inboundId: int, domain: string)

  datatype IpLiteral = NotIp | IpV4 | IpV6

  /** The library calls the generator leans on: address literals and registrable domains. */
  datatype Names = Names(ipLiteral: string -> IpLiteral, meterable: string -> bool)

  /** Keep only entries of enabled inbounds whose domain is still meterable. */
  method FilterMeterPool(pool: seq<MeterEntry>, inboundTagById: map<int, string>, names: Names)
    returns (out: seq<MeterEntry>)
    ensures out == KeptEntries(pool, inboundTagById, names)
  {
    out := [];
    for i := 0 to |pool|
      invariant out == KeptEntries(pool[..i], inboundTagById, names)
    {
      var e := pool[i];
      assert pool[..i + 1][..i] == pool[..i];
      if e.inboundId !in inboundTagById {
        continue;
      }
      if !names.meterable(e.domain) {
        continue;
      }
      out := out + [e];
    }
    assert pool[..|pool|] == pool;
  }

  function KeptEntries(pool: seq<MeterEntry>, inboundTagById: map<int, string>, names: Names): (out: seq<MeterEntry>)
    ensures forall e <- out :: e in pool && e.inboundId in inboundTagById && names.meterable(e.domain)
    ensures forall e <- pool :: e.inboundId in inboundTagById && names.meterable(e.domain) ==> e in out
  {
    if pool == [] then []
    else
      var front, e := pool[..|pool| - 1], pool[|pool| - 1];
      assert pool == front + [e];
      KeptEntries(front, inboundTagById, names) +
      if e.inboundId in inboundTagById && names.meterable(e.domain) then [e] else []
  }

  function EntryTag(e: MeterEntry): string {
    MeterTag(e.inboundId, e.domain)
  }

  /** One copy of the default outbound per entry, retagged. */
  function Clones(base: Json, pool: seq<MeterEntry>): (r: seq<Json>)
    requires base.Obj?
    ensures |r| == |pool|
    ensures forall i :: 0 <= i < |pool| ==> r[i] == WithTag(base, EntryTag(pool[i]))
  {
    seq(|pool|, i requires 0 <= i < |pool| => WithTag(base, EntryTag(pool[i])))
  }

  /**
   Appends the copies. The second result is the entries really written: without a default outbound object there
   are none, so the caller writes no rule either.
   */
  method AppendMeterOutbounds(outbounds: seq<Json>, pool: seq<MeterEntry>)
    returns (out: seq<Json>, written: seq<MeterEntry>)
    ensures written == if outbounds != [] && outbounds[0].Obj? then pool else []
    ensures out == outbounds + if outbounds != [] && outbounds[0].Obj? then Clones(outbounds[0], pool) else []
  {
    if |pool| == 0 {
      return outbounds, [];
    }
    if |outbounds| == 0 || !outbounds[0].Obj? {
      return outbounds, [];
    }
    var base := outbounds[0];
    out := outbounds;
    for i := 0 to |pool|
      invariant out == outbounds + Clones(base, pool)[..i]
    {
      assert Clones(base, pool)[..i + 1] == Clones(base, pool)[..i] + [Clones(base, pool)[i]];
      out := out + [WithTag(base, EntryTag(pool[i]))];
    }
    assert Clones(base, pool)[..|pool|] == Clones(base, pool);
    written := pool;
  }

  /** Whether metering rules for domains must wait for a resolved address. */
  function MeterRuleNeedsIpGuard(strategy: Json): (guard: bool)
    ensures guard <==> StrategyOf(strategy) != AsIs
  {
    match strategy
    case Str(s) =>
      var lower := Lower(s);
      lower == "ipifnonmatch" || lower == "ipondemand"
    case _ => false
  }

  function MeterIpCondition(domain: string, names: Names): Option<string> {
    match names.ipLiteral(domain)
    case NotIp => None
    case IpV4 => Some(domain + "/32")
    case IpV6 => Some(domain + "/128")
  }

  function DomainRule(e: MeterEntry, tag: string, guard: bool): Rule {
    Field([tag], ["domain:" + e.domain], if guard then GUARD else [], EntryTag(e))
  }

  function IpRule(e: MeterEntry, tag: string, cidr: string): Rule {
    Field([tag], [], [cidr], EntryTag(e))
  }

  function DomainRules(pool: seq<MeterEntry>, tags: map<int, string>, names: Names, guard: bool): (r: seq<Rule>)
    requires forall e <- pool :: e.inboundId in tags
    ensures forall x <- r :: exists e <- pool :: MeterIpCondition(e.domain, names).None? && x == DomainRule(e, tags[e.inboundId], guard)
  {
    if pool == [] then []
    else
      var front, e := pool[..|pool| - 1], pool[|pool| - 1];
      assert pool == front + [e];
      DomainRules(front, tags, names, guard) +
      if MeterIpCondition(e.domain, names).None? then [DomainRule(e, tags[e.inboundId], guard)] else []
  }

  function IpRules(pool: seq<MeterEntry>, tags: map<int, string>, names: Names): (r: seq<Rule>)
    requires forall e <- pool :: e.inboundId in tags
    ensures forall x <- r :: exists e <- pool ::
      MeterIpCondition(e.domain, names).Some? && x == IpRule(e, tags[e.inboundId], MeterIpCondition(e.domain, names).value)
  {
    if pool == [] then []
    else
      var front, e := pool[..|pool| - 1], pool[|pool| - 1];
      assert pool == front + [e];
      IpRules(front, tags, names) +
      match MeterIpCondition(e.domain, names)
      case None => []
      case Some(cidr) => [IpRule(e, tags[e.inboundId], cidr)]
  }

  /** All domain rules stand before all address rules. */
  method BuildMeterRules(pool: seq<MeterEntry>, tags: map<int, string>, names: Names, guard: bool) returns (rules: seq<Rule>)
    requires forall e <- pool :: e.inboundId in tags
    ensures rules == DomainRules(pool, tags, names, guard) + IpRules(pool, tags, names)
  {
    var domainRules: seq<Rule> := [];
    var ipRules: seq<Rule> := [];
    for i := 0 to |pool|
      invariant domainRules == DomainRules(pool[..i], tags, names, guard)
      invariant ipRules == IpRules(pool[..i], tags, names)
    {
      var e := pool[i];
      assert e in pool;
      assert pool[..i + 1][..i] == pool[..i];
      var tag := tags[e.inboundId];
      var cidr := MeterIpCondition(e.domain, names);
      if cidr.Some? {
        ipRules := ipRules + [IpRule(e, tag, cidr.value)];
        continue;
      }
      domainRules := domainRules + [Field([tag], ["domain:" + e.domain], if guard then GUARD else [], EntryTag(e))];
    }
    assert pool[..|pool|] == pool;
    rules := domainRules + ipRules;
  }

  // ----- the metered configuration against the plain one

  ghost predicate MeterRules(rules: seq<Rule>, pool: seq<MeterEntry>, guard: bool) {
    forall r <- rules ::
      && r.Field? && (r.ips == [] ==> !guard && r.domains != [])
      && exists e <- pool :: r.outboundTag == EntryTag(e)
  }

  lemma BuiltMeterRules(pool: seq<MeterEntry>, tags: map<int, string>, names: Names, guard: bool)
    requires forall e <- pool :: e.inboundId in tags
    ensures MeterRules(DomainRules(pool, tags, names, guard) + IpRules(pool, tags, names), pool, guard)
    ensures pool == [] ==> DomainRules(pool, tags, names, guard) + IpRules(pool, tags, names) == []
  {
  }

  /** A guarded metering rule never applies to a domain target before its address is known. */
  lemma GuardBlocksFirstPass(w: World, rules: seq<Rule>, pool: seq<MeterEntry>, c: Conn)
    requires Lawful(w) && MeterRules(rules, pool, true) && c.target.DomainTarget?
    ensures FirstMatch(w, rules, c, false) == None
  {
    FirstMatchNone(w, rules, c, false);
  }

  /** The plain rules keep their say: appending metering rules only changes connections they leave unmatched. */
  lemma PickWithMeter(w: World, strategy: Strategy, base: seq<Rule>, meter: seq<Rule>, pool: seq<MeterEntry>, c: Conn)
    requires Lawful(w) && MeterRules(meter, pool, strategy != AsIs)
    ensures var plain, metered := Pick(w, strategy, base, c), Pick(w, strategy, base + meter, c);
      if plain.Some? then metered == plain
      else metered.None? || exists e <- pool :: metered == Some(EntryTag(e))
  {
    FirstMatchConcat(w, base, meter, c, false);
    FirstMatchConcat(w, base, meter, c, true);
    FirstMatchNone(w, meter, c, false);
    FirstMatchNone(w, meter, c, true);
    if strategy == IpIfNonMatch && c.target.DomainTarget? {
      GuardBlocksFirstPass(w, meter, pool, c);
    }
  }

  lemma FindClone(base: Json, pool: seq<MeterEntry>, tag: string)
    requires base.Obj?
    ensures (exists e <- pool :: tag == EntryTag(e)) ==> FindTag(Clones(base, pool), tag).Some?
    ensures FindTag(Clones(base, pool), tag).Some? ==>
      Untagged(FindTag(Clones(base, pool), tag).value) == Untagged(base)
  {
    var clones := Clones(base, pool);
    FindTagFound(clones, tag);
    forall i | 0 <= i < |pool|
      ensures Untagged(clones[i]) == Untagged(base) && TagOf(clones[i]) == EntryTag(pool[i])
    {
      RetaggedSame(base, EntryTag(pool[i]));
    }
    if e :| e in pool && tag == EntryTag(e) {
      var i :| 0 <= i < |pool| && pool[i] == e;
      assert clones[i] in clones;
    }
  }

  /** No outbound already carries a metering tag of the pool. */
  ghost predicate TagsFree(outbounds: seq<Json>, pool: seq<MeterEntry>) {
    forall ob <- outbounds, e <- pool :: TagOf(ob) != EntryTag(e)
  }

  /**
   Metering is transparent: under every strategy, every DNS answer and every connection, the connection leaves by
   the same outbound as without metering, up to the outbound's tag. Rules with dangling tags included.
   */
  lemma MeteringTransparent(w: World, strategy: Strategy, outbounds: seq<Json>, base: seq<Rule>, meter: seq<Rule>,
                            pool: seq<MeterEntry>, c: Conn)
    requires outbounds != [] && outbounds[0].Obj?
    requires Lawful(w) && MeterRules(meter, pool, strategy != AsIs) && TagsFree(outbounds, pool)
    ensures Untagged(Egress(outbounds + Clones(outbounds[0], pool), Pick(w, strategy, base + meter, c)))
         == Untagged(Egress(outbounds, Pick(w, strategy, base, c)))
  {
    var clones := Clones(outbounds[0], pool);
    var picked := Pick(w, strategy, base + meter, c);
    PickWithMeter(w, strategy, base, meter, pool, c);
    assert (outbounds + clones)[0] == outbounds[0];
    if picked.Some? {
      FindTagConcat(outbounds, clones, picked.value);
      FindTagFound(outbounds, picked.value);
      FindClone(outbounds[0], pool, picked.value);
    }
  }

  /** Two outbounds of one tag keep the core from starting; any number may have none. */
  ghost predicate RepeatsTag(outbounds: seq<Json>) {
    exists i, j :: 0 <= i < j < |outbounds| && TagOf(outbounds[i]) == TagOf(outbounds[j]) != ""
  }

  ghost predicate EntryTwice(pool: seq<MeterEntry>) {
    exists i, j :: 0 <= i < j < |pool| && EntryTag(pool[i]) == EntryTag(pool[j])
  }

  /** A pool that names each domain of an inbound once has no tag twice. */
  lemma EntriesDistinct(pool: seq<MeterEntry>)
    requires forall i, j :: 0 <= i < j < |pool| ==> pool[i] != pool[j]
    requires forall e <- pool :: 0 < e.inboundId <= MAX_INT && e.domain != ""
    ensures !EntryTwice(pool)
  {
    if i, j :| 0 <= i < j < |pool| && EntryTag(pool[i]) == EntryTag(pool[j]) {
      assert pool[i] in pool && pool[j] in pool;
      MeterTagInjective(pool[i].inboundId, pool[i].domain, pool[j].inboundId, pool[j].domain);
    }
  }

  ghost predicate Shares(xs: seq<Json>, ys: seq<Json>) {
    exists i, j :: 0 <= i < |xs| && 0 <= j < |ys| && TagOf(xs[i]) == TagOf(ys[j]) != ""
  }

  lemma TwiceConcat(xs: seq<Json>, ys: seq<Json>)
    ensures RepeatsTag(xs + ys) <==> RepeatsTag(xs) || RepeatsTag(ys) || Shares(xs, ys)
  {
    hide TagOf;
    var all, n := xs + ys, |xs|;
    assert forall k :: 0 <= k < n ==> all[k] == xs[k];
    assert forall k :: 0 <= k < |ys| ==> all[n + k] == ys[k];
    assert forall k :: n <= k < |all| ==> all[k] == ys[k - n];
    if Shares(xs, ys) {
      var i, j :| 0 <= i < n && 0 <= j < |ys| && TagOf(xs[i]) == TagOf(ys[j]) != "";
      assert TagOf(all[i]) == TagOf(all[n + j]) != "";
    }
    if RepeatsTag(ys) {
      var i, j :| 0 <= i < j < |ys| && TagOf(ys[i]) == TagOf(ys[j]) != "";
      assert TagOf(all[n + i]) == TagOf(all[n + j]) != "";
    }
  }

  lemma CloneTags(base: Json, pool: seq<MeterEntry>)
    requires base.Obj?
    ensures forall k :: 0 <= k < |pool| ==> TagOf(Clones(base, pool)[k]) == EntryTag(pool[k]) != ""
  {
    forall k | 0 <= k < |pool|
      ensures TagOf(Clones(base, pool)[k]) == EntryTag(pool[k]) != ""
    {
      RetaggedSame(base, EntryTag(pool[k]));
      assert EntryTag(pool[k])[0] == 'a';
    }
  }

  /** Outbounds tagged like the entries of a pool repeat a tag, or take one from others, as the entries do. */
  lemma TaggedLikePool(outbounds: seq<Json>, clones: seq<Json>, pool: seq<MeterEntry>)
    requires |clones| == |pool| && forall k :: 0 <= k < |pool| ==> TagOf(clones[k]) == EntryTag(pool[k]) != ""
    ensures RepeatsTag(clones) <==> EntryTwice(pool)
    ensures Shares(outbounds, clones) <==> !TagsFree(outbounds, pool)
  {
    hide EntryTag, TagOf;
    if EntryTwice(pool) {
      var i, j :| 0 <= i < j < |pool| && EntryTag(pool[i]) == EntryTag(pool[j]);
      assert TagOf(clones[i]) == TagOf(clones[j]) != "";
    }
    if Shares(outbounds, clones) {
      var i, k :| 0 <= i < |outbounds| && 0 <= k < |clones| && TagOf(outbounds[i]) == TagOf(clones[k]) != "";
      assert outbounds[i] in outbounds && pool[k] in pool;
    }
    if ob, e :| ob in outbounds && e in pool && TagOf(ob) == EntryTag(e) {
      var i :| 0 <= i < |outbounds| && outbounds[i] == ob;
      var k :| 0 <= k < |pool| && pool[k] == e;
      assert TagOf(outbounds[i]) == TagOf(clones[k]) != "";
    }
  }

  /**
   Metering keeps the core from starting if and only if an outbound already carries a metering tag of the pool, or a tag
   is there twice even before, among the outbounds or in the pool.
   */
  lemma RefusedExactly(outbounds: seq<Json>, pool: seq<MeterEntry>)
    requires outbounds != [] && outbounds[0].Obj?
    ensures RepeatsTag(outbounds + Clones(outbounds[0], pool)) <==>
      RepeatsTag(outbounds) || !TagsFree(outbounds, pool) || EntryTwice(pool)
  {
    var clones := Clones(outbounds[0], pool);
    CloneTags(outbounds[0], pool);
    TwiceConcat(outbounds, clones);
    hide RepeatsTag, TagsFree, EntryTwice, Shares;
    TaggedLikePool(outbounds, clones, pool);
  }

  ghost function EverythingResolvesToTen(): World {
    World(_ => ["10.0.0.1"], (_, _) => true, (_, ips) => ips != [], (_, _, _) => false)
  }

  /** Without the guard the claim is false: a domain rule matched early keeps an address rule from its second pass. */
  lemma UnguardedNotTransparent()
    returns (w: World, outbounds: seq<Json>, base: seq<Rule>, pool: seq<MeterEntry>, meter: seq<Rule>, c: Conn)
    ensures Lawful(w) && outbounds != [] && outbounds[0].Obj?
    ensures TagsFree(outbounds, pool) && MeterRules(meter, pool, false)
    ensures Untagged(Egress(outbounds + Clones(outbounds[0], pool), Pick(w, IpIfNonMatch, base + meter, c)))
         != Untagged(Egress(outbounds, Pick(w, IpIfNonMatch, base, c)))
  {
    w := EverythingResolvesToTen();
    assert GUARD[0] in GUARD;
    var freedom := Obj(map["protocol" := Str("freedom")]);
    var blackhole := Obj(map["tag" := Str("block"), "protocol" := Str("blackhole")]);
    outbounds := [freedom, blackhole];
    var e := MeterEntry(1, "x.com");
    pool := [e];
    base := [Field([], [], ["10.0.0.0/8"], "block")];
    meter := [Field(["in"], ["domain:x.com"], [], EntryTag(e))];
    c := Conn("in", DomainTarget("x.com"));
    UnguardedPicks(w, base, meter, e, c);
    assert EntryTag(e)[0] == 'a' && EntryTag(e) != "";
    FindClone(freedom, pool, EntryTag(e));
    FindTagConcat(outbounds, Clones(freedom, pool), EntryTag(e));
    hide Clones, EntryTag, Pick, Applies;
    assert "protocol" in Untagged(freedom).fields && "protocol" in Untagged(blackhole).fields;
    assert TagOf(freedom) == "" && TagOf(blackhole) == "block" && outbounds[1..] == [blackhole];
    assert FindTag(outbounds, "block") == Some(blackhole);
  }

  lemma UnguardedPicks(w: World, base: seq<Rule>, meter: seq<Rule>, e: MeterEntry, c: Conn)
    requires w == EverythingResolvesToTen() && c == Conn("in", DomainTarget("x.com"))
    requires base == [Field([], [], ["10.0.0.0/8"], "block")]
    requires meter == [Field(["in"], ["domain:x.com"], [], EntryTag(e))]
    ensures Pick(w, IpIfNonMatch, base, c) == Some("block")
    ensures Pick(w, IpIfNonMatch, base + meter, c) == Some(EntryTag(e))
  {
    hide EntryTag;
    assert base[0].ips[0] == "10.0.0.0/8" && base[0].ips[0] in base[0].ips;
    assert meter[0].domains[0] in meter[0].domains;
    FirstMatchConcat(w, base, meter, c, false);
  }

  /** A domain the pool meters is counted on its own row, never on the row of the address it resolves to. */
  lemma DomainBeforeAddress(w: World, pool: seq<MeterEntry>, tags: map<int, string>, names: Names, guard: bool,
                            e: MeterEntry, c: Conn, resolved: bool)
    requires (forall x <- pool :: x.inboundId in tags) && e in pool && names.ipLiteral(e.domain) == NotIp
    requires Applies(w, DomainRule(e, tags[e.inboundId], guard), c, resolved)
    ensures exists d <- pool ::
      && names.ipLiteral(d.domain) == NotIp
      && FirstMatch(w, DomainRules(pool, tags, names, guard) + IpRules(pool, tags, names), c, resolved) == Some(EntryTag(d))
  {
    hide Applies;
    FirstMatchConcat(w, DomainRules(pool, tags, names, guard), IpRules(pool, tags, names), c, resolved);
    FirstMatchNone(w, DomainRules(pool, tags, names, guard), c, resolved);
    DomainRuleListed(pool, tags, names, guard, e);
  }

  lemma {:induction false} DomainRuleListed(pool: seq<MeterEntry>, tags: map<int, string>, names: Names, guard: bool, e: MeterEntry)
    requires (forall x <- pool :: x.inboundId in tags) && e in pool && names.ipLiteral(e.domain) == NotIp
    ensures DomainRule(e, tags[e.inboundId], guard) in DomainRules(pool, tags, names, guard)
  {
    var front := pool[..|pool| - 1];
    assert pool == front + [pool[|pool| - 1]];
    if e in front {
      DomainRuleListed(front, tags, names, guard, e);
    }
  }

  // ----- what a metering rule counts

  /** A connection of the entry's own inbound, to its domain or a subdomain, or to the address it stands for. */
  ghost predicate Concerns(w: World, e: MeterEntry, tags: map<int, string>, names: Names, c: Conn, resolved: bool)
    requires e.inboundId in tags
  {
    && c.inboundTag == tags[e.inboundId]
    && (match names.ipLiteral(e.domain)
        case NotIp => c.target.DomainTarget? && w.domainMatch("domain:" + e.domain, c.target.name)
        case IpV4 => w.ipMatch(e.domain + "/32", Visible(w, c, resolved))
        case IpV6 => w.ipMatch(e.domain + "/128", Visible(w, c, resolved)))
  }

  lemma EntryRuleApplies(w: World, e: MeterEntry, tags: map<int, string>, names: Names, guard: bool, c: Conn, resolved: bool)
    requires Lawful(w) && e.inboundId in tags
    ensures MeterIpCondition(e.domain, names).None? && Applies(w, DomainRule(e, tags[e.inboundId], guard), c, resolved) ==>
      Concerns(w, e, tags, names, c, resolved)
    ensures MeterIpCondition(e.domain, names).Some? ==>
      (Applies(w, IpRule(e, tags[e.inboundId], MeterIpCondition(e.domain, names).value), c, resolved) ==>
       Concerns(w, e, tags, names, c, resolved))
    ensures Concerns(w, e, tags, names, c, resolved) && (guard ==> Visible(w, c, resolved) != []) ==>
      if MeterIpCondition(e.domain, names).None? then Applies(w, DomainRule(e, tags[e.inboundId], guard), c, resolved)
      else Applies(w, IpRule(e, tags[e.inboundId], MeterIpCondition(e.domain, names).value), c, resolved)
  {
    hide EntryTag;
    var r := DomainRule(e, tags[e.inboundId], guard);
    assert r.domains[0] in r.domains;
    if MeterIpCondition(e.domain, names).Some? {
      var q := IpRule(e, tags[e.inboundId], MeterIpCondition(e.domain, names).value);
      assert q.ips[0] in q.ips;
    }
  }

  /** What is counted under an entry's tag is a connection the entry is for. */
  lemma CountedRightly(w: World, pool: seq<MeterEntry>, tags: map<int, string>, names: Names, guard: bool, c: Conn, resolved: bool)
    requires Lawful(w) && forall e <- pool :: e.inboundId in tags
    ensures var picked := FirstMatch(w, DomainRules(pool, tags, names, guard) + IpRules(pool, tags, names), c, resolved);
      picked.Some? ==> exists e <- pool :: picked == Some(EntryTag(e)) && Concerns(w, e, tags, names, c, resolved)
  {
    var rules := DomainRules(pool, tags, names, guard) + IpRules(pool, tags, names);
    FirstMatchNone(w, rules, c, resolved);
    if FirstMatch(w, rules, c, resolved).Some? {
      var r :| r in rules && Applies(w, r, c, resolved) && FirstMatch(w, rules, c, resolved) == Some(r.outboundTag);
      hide Applies, Lawful, EntryTag, FirstMatch;
      if r in DomainRules(pool, tags, names, guard) {
        var e :| e in pool && MeterIpCondition(e.domain, names).None? && r == DomainRule(e, tags[e.inboundId], guard);
        EntryRuleApplies(w, e, tags, names, guard, c, resolved);
      } else {
        var e :| e in pool && MeterIpCondition(e.domain, names).Some? &&
                 r == IpRule(e, tags[e.inboundId], MeterIpCondition(e.domain, names).value);
        EntryRuleApplies(w, e, tags, names, guard, c, resolved);
      }
    }
  }
}
