/** Generating outbounds and routing, the DNS step after it, and why metering stays invisible through both. */
module Injector {
  import opened Collections
  import opened Json
  import opened MeterTags
  import opened Router
  import opened Metering
  import RuleCompiler

  const DEFAULT_TAG := "a-ui-default"

  function BlockOutbound(): Json {
    Obj(map["tag" := Str(RuleCompiler.BLOCK_TAG), "protocol" := Str("blackhole"), "settings" := Obj(map[])])
  }

  predicate IsReservedTag(tag: string) {
    tag == RuleCompiler.BLOCK_TAG || tag == DEFAULT_TAG || IsMeterTag(tag)
  }

  /** A stored node; its config is None when the stored text does not decode. */
  datatype Node = Node(id: int, tag: string, config: Option<Json>)

  // ----- outbounds

  /** The template's outbounds with a tag on the first one, and the tag it carries; "" when it cannot carry one. */
  function TagDefault(outbounds: seq<Json>): (seq<Json>, string) {
    if outbounds == [] || !outbounds[0].Obj? then (outbounds, "")
    else if TagOf(outbounds[0]) != "" then (outbounds, TagOf(outbounds[0]))
    else (outbounds[0 := WithTag(outbounds[0], DEFAULT_TAG)], DEFAULT_TAG)
  }

  method TagDefaultOutbound(outbounds: seq<Json>) returns (out: seq<Json>, tag: string)
    ensures (out, tag) == TagDefault(outbounds)
  {
    if |outbounds| == 0 {
      return outbounds, "";
    }
    var ob := outbounds[0];
    if !ob.Obj? {
      return outbounds, "";
    }
    if "tag" in ob.fields && ob.fields["tag"].Str? && ob.fields["tag"].s != "" {
      return outbounds, ob.fields["tag"].s;
    }
    out, tag := outbounds[0 := Obj(ob.fields["tag" := Str(DEFAULT_TAG)])], DEFAULT_TAG;
  }

  predicate Writable(node: Node) {
    !IsReservedTag(node.tag) && node.config.Some? && node.config.value.Obj?
  }

  function NodeOutbounds(nodes: seq<Node>): seq<Json> {
    if nodes == [] then []
    else
      var node := nodes[|nodes| - 1];
      NodeOutbounds(nodes[..|nodes| - 1]) + if Writable(node) then [WithTag(node.config.value, node.tag)] else []
  }

  function UsableTags(nodes: seq<Node>): map<int, string> {
    if nodes == [] then map[]
    else
      var front, node := UsableTags(nodes[..|nodes| - 1]), nodes[|nodes| - 1];
      if Writable(node) then front[node.id := node.tag] else front
  }

  method BuildOutbounds(existing: seq<Json>, nodes: seq<Node>)
    returns (outbounds: seq<Json>, usable: map<int, string>, defaultTag: string)
    ensures outbounds == TagDefault(existing).0 + NodeOutbounds(nodes) + [BlockOutbound()]
    ensures usable == UsableTags(nodes) && defaultTag == TagDefault(existing).1
  {
    outbounds, defaultTag := TagDefaultOutbound(existing);
    usable := map[];
    for i := 0 to |nodes|
      invariant outbounds == TagDefault(existing).0 + NodeOutbounds(nodes[..i])
      invariant usable == UsableTags(nodes[..i])
    {
      assert nodes[..i + 1][..i] == nodes[..i];
      var node := nodes[i];
      if IsReservedTag(node.tag) {
        continue;
      }
      if node.config.None? || !node.config.value.Obj? {
        continue;
      }
      outbounds := outbounds + [WithTag(node.config.value, node.tag)];
      usable := usable[node.id := node.tag];
    }
    assert nodes[..|nodes|] == nodes;
    outbounds := outbounds + [BlockOutbound()];
  }

  lemma {:induction false} NodesWritten(nodes: seq<Node>)
    ensures forall id <- UsableTags(nodes) :: exists ob <- NodeOutbounds(nodes) :: TagOf(ob) == UsableTags(nodes)[id]
    ensures forall ob <- NodeOutbounds(nodes) :: ob.Obj? && !IsReservedTag(TagOf(ob))
  {
    if nodes != [] {
      var front, node := nodes[..|nodes| - 1], nodes[|nodes| - 1];
      NodesWritten(front);
      assert forall ob <- NodeOutbounds(front) :: ob in NodeOutbounds(nodes);
      if Writable(node) {
        var ob := WithTag(node.config.value, node.tag);
        assert ob in NodeOutbounds(nodes) && TagOf(ob) == node.tag;
      }
    }
  }

  lemma DefaultTagLeadsFirst(existing: seq<Json>, rest: seq<Json>)
    requires TagDefault(existing).1 != ""
    ensures var outbounds := TagDefault(existing).0 + rest; FindTag(outbounds, TagDefault(existing).1) == Some(outbounds[0])
  {
  }

  lemma NodeTagFound(existing: seq<Json>, nodes: seq<Node>, id: int)
    requires id in UsableTags(nodes)
    ensures FindTag(TagDefault(existing).0 + NodeOutbounds(nodes) + [BlockOutbound()], UsableTags(nodes)[id]).Some?
  {
    hide TagDefault;
    var tag := UsableTags(nodes)[id];
    var outbounds := TagDefault(existing).0 + NodeOutbounds(nodes) + [BlockOutbound()];
    NodesWritten(nodes);
    var ob :| ob in NodeOutbounds(nodes) && TagOf(ob) == tag;
    hide UsableTags, NodeOutbounds;
    assert ob in outbounds;
    FindTagFound(outbounds, tag);
  }

  /** Every tag a generated rule can name belongs to a written outbound; the default tag leads to the default outbound. */
  lemma NoDanglingTag(existing: seq<Json>, nodes: seq<Node>, t: RuleCompiler.Tables, tag: string)
    requires t.nodes == UsableTags(nodes) && t.defaultTag == TagDefault(existing).1
    requires RuleCompiler.Known(t, tag)
    ensures var outbounds := TagDefault(existing).0 + NodeOutbounds(nodes) + [BlockOutbound()];
      && FindTag(outbounds, tag).Some?
      && (tag == t.defaultTag && tag != "" ==> FindTag(outbounds, tag) == Some(outbounds[0]))
  {
    hide TagDefault, UsableTags, NodeOutbounds;
    var outbounds := TagDefault(existing).0 + NodeOutbounds(nodes) + [BlockOutbound()];
    if tag == t.defaultTag && tag != "" {
      DefaultTagLeadsFirst(existing, NodeOutbounds(nodes) + [BlockOutbound()]);
      assert outbounds == TagDefault(existing).0 + (NodeOutbounds(nodes) + [BlockOutbound()]);
    } else if tag == RuleCompiler.BLOCK_TAG {
      FindTagFound(outbounds, tag);
      assert outbounds[|outbounds| - 1] == BlockOutbound();
      assert BlockOutbound() in outbounds;
    } else {
      var id :| id in t.nodes && t.nodes[id] == tag;
      NodeTagFound(existing, nodes, id);
    }
  }

  /** Nodes, the blackhole and the tagged default never take a metering tag, so only the template could. */
  lemma OnlyTemplateCanClash(existing: seq<Json>, nodes: seq<Node>, pool: seq<MeterEntry>)
    requires forall ob <- existing :: !IsMeterTag(TagOf(ob))
    ensures TagsFree(TagDefault(existing).0 + NodeOutbounds(nodes) + [BlockOutbound()], pool)
  {
    NodesWritten(nodes);
    forall e | e in pool
      ensures IsMeterTag(EntryTag(e))
    {
      var tag := EntryTag(e);
      assert tag == PREFIX + (Itoa(e.inboundId) + "-" + e.domain);
      assert tag[..|PREFIX|] == PREFIX;
    }
    forall ob | ob in TagDefault(existing).0 + NodeOutbounds(nodes) + [BlockOutbound()]
      ensures !IsMeterTag(TagOf(ob))
    {
      ReservedNotMeter();
    }
  }

  lemma ReservedNotMeter()
    ensures !IsMeterTag(RuleCompiler.BLOCK_TAG) && !IsMeterTag(DEFAULT_TAG)
  {
    assert DEFAULT_TAG[..|PREFIX|][5] == 'd' && PREFIX[5] == 'm';
  }

  // ----- the DNS step

  function WithStrategy(ob: Json): Json
    requires ob.Obj?
  {
    var settings := if "settings" in ob.fields && ob.fields["settings"].Obj? then ob.fields["settings"].fields else map[];
    Obj(ob.fields["settings" := Obj(settings["domainStrategy" := Str("UseIP")])])
  }

  predicate IsFreedom(ob: Json) {
    ob.Obj? && StringField(ob, "protocol") == "freedom"
  }

  function FreedOne(ob: Json): Json {
    if ob.Obj? && IsMeterTag(TagOf(ob)) then WithStrategy(ob) else ob
  }

  function FreedRest(outbounds: seq<Json>): (r: seq<Json>)
    ensures |r| == |outbounds| && forall i :: 0 <= i < |r| ==> r[i] == FreedOne(outbounds[i])
  {
    seq(|outbounds|, i requires 0 <= i < |outbounds| => FreedOne(outbounds[i]))
  }

  /** Nothing changes unless the first outbound is freedom; then it and every metering outbound get the strategy. */
  function Freed(outbounds: seq<Json>): (r: seq<Json>)
    ensures |r| == |outbounds|
  {
    if outbounds == [] || !IsFreedom(outbounds[0]) then outbounds
    else [WithStrategy(outbounds[0])] + FreedRest(outbounds[1..])
  }

  method ApplyFreedomStrategy(outbounds: seq<Json>) returns (out: seq<Json>)
    ensures out == Freed(outbounds)
  {
    if |outbounds| == 0 {
      return outbounds;
    }
    var first := outbounds[0];
    if !first.Obj? {
      return outbounds;
    }
    if StringField(first, "protocol") != "freedom" {
      return outbounds;
    }
    hide WithStrategy, Freed;
    out := outbounds[0 := WithStrategy(first)];
    for i := 1 to |outbounds|
      invariant |out| == |outbounds| && out[0] == WithStrategy(first)
      invariant forall j :: 1 <= j < i ==> out[j] == FreedOne(outbounds[j])
      invariant forall j :: i <= j < |outbounds| ==> out[j] == outbounds[j]
    {
      var ob := out[i];
      if !ob.Obj? || !IsMeterTag(TagOf(ob)) {
        continue;
      }
      out := out[i := WithStrategy(ob)];
    }
    FreedPointwise(outbounds, out);
  }

  lemma FreedPointwise(outbounds: seq<Json>, out: seq<Json>)
    requires outbounds != [] && IsFreedom(outbounds[0]) && |out| == |outbounds|
    requires out[0] == WithStrategy(outbounds[0])
    requires forall j :: 1 <= j < |out| ==> out[j] == FreedOne(outbounds[j])
    ensures out == Freed(outbounds)
  {
    var expected := Freed(outbounds);
    assert expected == [WithStrategy(outbounds[0])] + FreedRest(outbounds[1..]);
    hide WithStrategy, FreedOne, IsFreedom, Freed;
    forall j | 0 <= j < |out|
      ensures out[j] == expected[j]
    {
      if j > 0 {
        assert expected[j] == FreedRest(outbounds[1..])[j - 1] == FreedOne(outbounds[1..][j - 1]);
      }
    }
  }

  lemma StrategyCommutesWithTag(ob: Json, tag: string)
    requires ob.Obj?
    ensures WithStrategy(WithTag(ob, tag)) == WithTag(WithStrategy(ob), tag)
    ensures TagOf(WithStrategy(ob)) == TagOf(ob)
  {
    var settings := if "settings" in ob.fields && ob.fields["settings"].Obj? then ob.fields["settings"].fields else map[];
    var s := Obj(settings["domainStrategy" := Str("UseIP")]);
    assert ob.fields["tag" := Str(tag)]["settings" := s] == ob.fields["settings" := s]["tag" := Str(tag)];
  }

  /** Copying before the DNS step gives what copying after it would: every copy stays equal to the default. */
  lemma DnsCommutesWithCloning(outbounds: seq<Json>, pool: seq<MeterEntry>)
    requires outbounds != [] && outbounds[0].Obj?
    ensures Freed(outbounds)[0].Obj?
    ensures Freed(outbounds + Clones(outbounds[0], pool)) == Freed(outbounds) + Clones(Freed(outbounds)[0], pool)
  {
    var base, clones := outbounds[0], Clones(outbounds[0], pool);
    var all := outbounds + clones;
    if IsFreedom(base) {
      var left, right := Freed(all), Freed(outbounds) + Clones(WithStrategy(base), pool);
      assert |left| == |right|;
      FreedAt(outbounds, 0);
      hide Freed, FreedOne, IsFreedom, WithTag, EntryTag;
      forall i | 0 <= i < |left|
        ensures left[i] == right[i]
      {
        FreedAt(all, i);
        if i < |outbounds| {
          FreedAt(outbounds, i);
        } else {
          CloneFreed(base, pool[i - |outbounds|]);
        }
      }
    }
  }

  lemma FreedAt(outbounds: seq<Json>, i: nat)
    requires i < |outbounds| && IsFreedom(outbounds[0])
    ensures Freed(outbounds)[i] == if i == 0 then WithStrategy(outbounds[0]) else FreedOne(outbounds[i])
  {
  }

  lemma CloneFreed(base: Json, e: MeterEntry)
    requires base.Obj?
    ensures FreedOne(WithTag(base, EntryTag(e))) == WithTag(WithStrategy(base), EntryTag(e))
  {
    CloneIsMeter(base, e);
    StrategyCommutesWithTag(base, EntryTag(e));
  }

  lemma CloneIsMeter(base: Json, e: MeterEntry)
    requires base.Obj?
    ensures IsMeterTag(TagOf(WithTag(base, EntryTag(e))))
  {
    var tag := EntryTag(e);
    assert tag == PREFIX + (Itoa(e.inboundId) + "-" + e.domain);
    assert tag[..|PREFIX|] == PREFIX;
  }

  lemma FreedTags(outbounds: seq<Json>)
    ensures |Freed(outbounds)| == |outbounds| && forall i :: 0 <= i < |outbounds| ==> TagOf(Freed(outbounds)[i]) == TagOf(outbounds[i])
    ensures RepeatsTag(Freed(outbounds)) <==> RepeatsTag(outbounds)
  {
    forall i | 0 <= i < |outbounds|
      ensures TagOf(Freed(outbounds)[i]) == TagOf(outbounds[i])
    {
      FreedTag(outbounds, i);
    }
    hide Freed, TagOf;
    if RepeatsTag(outbounds) {
      var i, j :| 0 <= i < j < |outbounds| && TagOf(outbounds[i]) == TagOf(outbounds[j]) != "";
      assert TagOf(Freed(outbounds)[i]) == TagOf(Freed(outbounds)[j]) != "";
    }
  }

  lemma FreedTag(outbounds: seq<Json>, i: nat)
    requires i < |outbounds|
    ensures TagOf(Freed(outbounds)[i]) == TagOf(outbounds[i])
  {
    if IsFreedom(outbounds[0]) {
      FreedAt(outbounds, i);
      assert outbounds[0].Obj?;
      if outbounds[i].Obj? {
        StrategyCommutesWithTag(outbounds[i], "");
      }
      hide TagOf, Freed, WithStrategy, IsFreedom, IsMeterTag;
    }
  }

  lemma FreedKeepsTags(outbounds: seq<Json>, pool: seq<MeterEntry>)
    requires TagsFree(outbounds, pool)
    ensures TagsFree(Freed(outbounds), pool)
  {
    FreedTags(outbounds);
    hide Freed, TagOf, EntryTag;
    var freed := Freed(outbounds);
    forall ob, e | ob in freed && e in pool
      ensures TagOf(ob) != EntryTag(e)
    {
      var i :| 0 <= i < |freed| && freed[i] == ob;
      assert outbounds[i] in outbounds;
    }
  }

  /** Transparency survives the DNS step, whatever the default outbound's protocol is. */
  lemma MeteringTransparentAfterDns(w: World, strategy: Strategy, outbounds: seq<Json>, base: seq<Rule>, meter: seq<Rule>,
                                    pool: seq<MeterEntry>, c: Conn)
    requires outbounds != [] && outbounds[0].Obj?
    requires Lawful(w) && MeterRules(meter, pool, strategy != AsIs) && TagsFree(outbounds, pool)
    ensures Untagged(Egress(Freed(outbounds + Clones(outbounds[0], pool)), Pick(w, strategy, base + meter, c)))
         == Untagged(Egress(Freed(outbounds), Pick(w, strategy, base, c)))
  {
    DnsCommutesWithCloning(outbounds, pool);
    FreedKeepsTags(outbounds, pool);
    MeteringTransparent(w, strategy, Freed(outbounds), base, meter, pool, c);
  }

  // ----- the whole generation

  /** What generation reads. Geo rules are decided elsewhere and enter as rules with conditions of their own. */
  datatype Inputs = Inputs(
    templateOutbounds: seq<Json>, templateRules: seq<Rule>, templateStrategy: Json, geoRules: seq<Rule>,
    nodes: seq<Node>, groups: map<int, RuleCompiler.Group>, dbRules: seq<RuleCompiler.DbRule>,
    inboundTagById: map<int, string>, resolveDomain: bool, dnsServers: bool, names: Names)

  datatype Config = Config(outbounds: seq<Json>, rules: seq<Rule>, strategy: Json)

  function TablesOf(x: Inputs): RuleCompiler.Tables {
    RuleCompiler.Tables(x.groups, x.inboundTagById, UsableTags(x.nodes), TagDefault(x.templateOutbounds).1)
  }

  function PlainOutbounds(x: Inputs): (r: seq<Json>)
    ensures r != []
  {
    TagDefault(x.templateOutbounds).0 + NodeOutbounds(x.nodes) + [BlockOutbound()]
  }

  function PlainRules(x: Inputs): seq<Rule> {
    x.templateRules + x.geoRules +
    RuleCompiler.CompileAll(TablesOf(x), x.dbRules, true) + RuleCompiler.CompileAll(TablesOf(x), x.dbRules, false)
  }

  function FinalStrategy(x: Inputs): Json {
    if x.resolveDomain then Str("IPIfNonMatch") else x.templateStrategy
  }

  /** The configuration without any metering. */
  function PlainConfig(x: Inputs): Config {
    Config(if x.dnsServers then Freed(PlainOutbounds(x)) else PlainOutbounds(x), PlainRules(x), FinalStrategy(x))
  }

  ghost predicate Leaves(w: World, cfg: Config, c: Conn, ob: Json)
    requires cfg.outbounds != []
  {
    Untagged(Egress(cfg.outbounds, Pick(w, StrategyOf(cfg.strategy), cfg.rules, c))) == ob
  }

  /**
   The shape of what is generated: the plain rules lead, metering rules follow, copies of the default outbound come last,
   and then the DNS step.
   */
  ghost predicate IsGenerated(x: Inputs, kept: seq<MeterEntry>, cfg: Config) {
    var plain := PlainOutbounds(x);
    var metered := plain + if plain[0].Obj? then Clones(plain[0], kept) else [];
    && cfg.strategy == FinalStrategy(x)
    && PlainRules(x) <= cfg.rules
    && MeterRules(cfg.rules[|PlainRules(x)|..], kept, StrategyOf(cfg.strategy) != AsIs)
    && cfg.outbounds == if x.dnsServers then Freed(metered) else metered
  }

  /**
   Generation as the source runs it, the DNS step last. Whatever the pool holds, no metering rule dangles, and if the
   core starts at all, every connection leaves as under the plain configuration, up to tags. It refuses to start exactly
   if it would without metering, or an outbound carries a metering tag before, or the pool names an entry twice.
   */
  method Inject(x: Inputs, pool: seq<MeterEntry>) returns (cfg: Config)
    ensures cfg.outbounds != []
    ensures !RepeatsTag(cfg.outbounds) || TagsFree(PlainOutbounds(x), KeptEntries(pool, x.inboundTagById, x.names)) ==>
      forall w: World, c: Conn, ob :: Lawful(w) ==> (Leaves(w, cfg, c, ob) <==> Leaves(w, PlainConfig(x), c, ob))
    ensures RepeatsTag(cfg.outbounds) <==>
      RepeatsTag(PlainConfig(x).outbounds) || Clashes(x, KeptEntries(pool, x.inboundTagById, x.names))
    ensures IsGenerated(x, KeptEntries(pool, x.inboundTagById, x.names), cfg)
    ensures forall r <- cfg.rules[|PlainRules(x)|..] :: exists ob <- cfg.outbounds :: TagOf(ob) == r.outboundTag
  {
    hide Freed, PlainRules, UsableTags, NodeOutbounds, TagDefault, RuleCompiler.CompileAll, IsGenerated, RepeatsTag, Clashes;
    var kept := FilterMeterPool(pool, x.inboundTagById, x.names);
    var outbounds, usable, defaultTag := BuildOutbounds(x.templateOutbounds, x.nodes);
    ghost var plain := outbounds;
    var written: seq<MeterEntry>;
    outbounds, written := AppendMeterOutbounds(outbounds, kept);
    var tables := RuleCompiler.Tables(x.groups, x.inboundTagById, usable, defaultTag);
    var blockRules, routeRules := RuleCompiler.BuildRules(tables, x.dbRules);
    var strategy := x.templateStrategy;
    if x.resolveDomain {
      strategy := Str("IPIfNonMatch");
    }
    var guard := MeterRuleNeedsIpGuard(strategy);
    var meterRules := BuildMeterRules(written, x.inboundTagById, x.names, guard);
    var rules := x.templateRules + x.geoRules;
    rules := rules + blockRules;
    rules := rules + routeRules;
    ghost var plainRules := rules;
    PlainRulesAre(x);
    rules := rules + meterRules;
    ghost var metered := outbounds;
    if x.dnsServers {
      outbounds := ApplyFreedomStrategy(outbounds);
    }
    cfg := Config(outbounds, rules, strategy);
    BuiltMeterRules(written, x.inboundTagById, x.names, guard);
    NothingDangles(x, plain, plainRules, written, meterRules, metered, cfg);
    ShapeHolds(x, plain, plainRules, strategy, kept, written, meterRules, metered, cfg);
    GenerationRefused(x, plain, kept, metered, cfg);
    if TagsFree(plain, written) {
      GenerationTransparent(x, plain, plainRules, strategy, written, meterRules, metered, cfg);
    }
  }

  lemma ShapeHolds(x: Inputs, plain: seq<Json>, plainRules: seq<Rule>, strategy: Json, kept: seq<MeterEntry>,
                   written: seq<MeterEntry>, meterRules: seq<Rule>, metered: seq<Json>, cfg: Config)
    requires plain == PlainOutbounds(x) && plainRules == PlainRules(x) && strategy == FinalStrategy(x)
    requires written == (if plain[0].Obj? then kept else []) && (written == [] ==> meterRules == [])
    requires MeterRules(meterRules, written, StrategyOf(strategy) != AsIs)
    requires metered == plain + if plain[0].Obj? then Clones(plain[0], kept) else []
    requires cfg == Config(if x.dnsServers then Freed(metered) else metered, plainRules + meterRules, strategy)
    ensures IsGenerated(x, kept, cfg)
  {
    hide Freed, PlainOutbounds, PlainRules, Clones;
    assert cfg.rules[|plainRules|..] == meterRules;
  }

  /** What metering adds to the reasons for which the core refuses the outbounds. */
  ghost predicate Clashes(x: Inputs, kept: seq<MeterEntry>) {
    PlainOutbounds(x)[0].Obj? && (!TagsFree(PlainOutbounds(x), kept) || EntryTwice(kept))
  }

  lemma GenerationRefused(x: Inputs, plain: seq<Json>, kept: seq<MeterEntry>, metered: seq<Json>, cfg: Config)
    requires plain == PlainOutbounds(x)
    requires metered == plain + if plain[0].Obj? then Clones(plain[0], kept) else []
    requires cfg.outbounds == if x.dnsServers then Freed(metered) else metered
    ensures RepeatsTag(cfg.outbounds) <==> RepeatsTag(PlainConfig(x).outbounds) || Clashes(x, kept)
    ensures !RepeatsTag(cfg.outbounds) && plain[0].Obj? ==> TagsFree(plain, kept)
  {
    hide Freed, PlainOutbounds, Clones, RepeatsTag, TagsFree, EntryTwice;
    FreedTags(plain);
    FreedTags(metered);
    if plain[0].Obj? {
      RefusedExactly(plain, kept);
    } else {
      assert metered == plain;
    }
  }

  /** A template that brings an outbound of such a tag starts without metering and is refused with it. */
  lemma TemplateClashRefused(x: Inputs, e: MeterEntry)
    requires x.templateOutbounds == [Obj(map["protocol" := Str("freedom")]), Obj(map["tag" := Str(EntryTag(e))])] && x.nodes == []
    ensures !RepeatsTag(PlainOutbounds(x)) && Clashes(x, [e])
    ensures RepeatsTag(PlainOutbounds(x) + Clones(PlainOutbounds(x)[0], [e]))
  {
    var plain := PlainOutbounds(x);
    assert |plain| == 3 && plain[0] == WithTag(x.templateOutbounds[0], DEFAULT_TAG) && plain[2] == BlockOutbound();
    assert TagOf(plain[1]) == EntryTag(e) && TagOf(plain[2]) == RuleCompiler.BLOCK_TAG;
    RetaggedSame(x.templateOutbounds[0], DEFAULT_TAG);
    CloneIsMeter(plain[0], e);
    RetaggedSame(plain[0], EntryTag(e));
    ReservedNotMeter();
    hide EntryTag, IsMeterTag, TagOf, PlainOutbounds;
    assert DEFAULT_TAG != RuleCompiler.BLOCK_TAG;
    assert plain[1] in plain && e in [e];
    RefusedExactly(plain, [e]);
  }

  lemma PlainRulesAre(x: Inputs)
    ensures PlainRules(x) == x.templateRules + x.geoRules +
      RuleCompiler.CompileAll(TablesOf(x), x.dbRules, true) + RuleCompiler.CompileAll(TablesOf(x), x.dbRules, false)
  {
  }

  lemma GenerationTransparent(x: Inputs, plain: seq<Json>, plainRules: seq<Rule>, strategy: Json, written: seq<MeterEntry>,
                              meterRules: seq<Rule>, metered: seq<Json>, cfg: Config)
    requires plain == PlainOutbounds(x) && plainRules == PlainRules(x) && strategy == FinalStrategy(x)
    requires (!plain[0].Obj? ==> written == []) && (written == [] ==> meterRules == [])
    requires MeterRules(meterRules, written, StrategyOf(strategy) != AsIs) && TagsFree(plain, written)
    requires metered == plain + if plain[0].Obj? then Clones(plain[0], written) else []
    requires cfg == Config(if x.dnsServers then Freed(metered) else metered, plainRules + meterRules, strategy)
    ensures forall w: World, c: Conn, ob :: Lawful(w) ==> (Leaves(w, cfg, c, ob) <==> Leaves(w, PlainConfig(x), c, ob))
  {
    hide Freed, PlainOutbounds, PlainRules, Clones;
    forall w: World, c: Conn, ob | Lawful(w)
      ensures Leaves(w, cfg, c, ob) <==> Leaves(w, PlainConfig(x), c, ob)
    {
      if plain[0].Obj? {
        MeteringTransparent(w, StrategyOf(strategy), plain, plainRules, meterRules, written, c);
        MeteringTransparentAfterDns(w, StrategyOf(strategy), plain, plainRules, meterRules, written, c);
      } else {
        assert plainRules + meterRules == plainRules && metered == plain;
      }
    }
  }

  lemma NothingDangles(x: Inputs, plain: seq<Json>, plainRules: seq<Rule>, written: seq<MeterEntry>, meterRules: seq<Rule>,
                       metered: seq<Json>, cfg: Config)
    requires plain != [] && plainRules == PlainRules(x)
    requires (!plain[0].Obj? ==> written == []) && (written == [] ==> meterRules == [])
    requires forall r <- meterRules :: exists e <- written :: r.outboundTag == EntryTag(e)
    requires metered == plain + if plain[0].Obj? then Clones(plain[0], written) else []
    requires cfg.outbounds == (if x.dnsServers then Freed(metered) else metered) && cfg.rules == plainRules + meterRules
    ensures PlainRules(x) <= cfg.rules
    ensures forall r <- cfg.rules[|PlainRules(x)|..] :: exists ob <- cfg.outbounds :: TagOf(ob) == r.outboundTag
  {
    hide Freed, PlainRules, Clones;
    assert cfg.rules[|plainRules|..] == meterRules;
    if plain[0].Obj? {
      forall r | r in meterRules
        ensures exists ob <- cfg.outbounds :: TagOf(ob) == r.outboundTag
      {
        var ob := MeterRuleWritten(x, plain, written, metered, r);
      }
    }
  }

  lemma MeterRuleWritten(x: Inputs, plain: seq<Json>, written: seq<MeterEntry>, metered: seq<Json>, r: Rule)
    returns (ob: Json)
    requires plain != [] && plain[0].Obj? && metered == plain + Clones(plain[0], written)
    requires exists e <- written :: r.outboundTag == EntryTag(e)
    ensures ob in (if x.dnsServers then Freed(metered) else metered) && TagOf(ob) == r.outboundTag
  {
    var e :| e in written && r.outboundTag == EntryTag(e);
    DnsCommutesWithCloning(plain, written);
    hide Freed, EntryTag;
    if x.dnsServers {
      ob := CloneListed(Freed(plain), Freed(plain)[0], written, e);
    } else {
      ob := CloneListed(plain, plain[0], written, e);
    }
  }

  lemma CloneListed(front: seq<Json>, base: Json, written: seq<MeterEntry>, e: MeterEntry) returns (ob: Json)
    requires base.Obj? && e in written
    ensures ob in front + Clones(base, written) && TagOf(ob) == EntryTag(e)
  {
    var i :| 0 <= i < |written| && written[i] == e;
    ob := Clones(base, written)[i];
    RetaggedSame(base, EntryTag(e));
    assert (front + Clones(base, written))[|front| + i] == ob;
  }

  // ----- where the generated rules lead

  /** The strategy stands among the settings, and nothing else changes. */
  lemma StrategyInSettings(ob: Json)
    requires ob.Obj?
    ensures var r := WithStrategy(ob);
      && r.Obj? && "settings" in r.fields && r.fields["settings"].Obj?
      && "domainStrategy" in r.fields["settings"].fields && r.fields["settings"].fields["domainStrategy"] == Str("UseIP")
      && (forall key :: key != "settings" ==> (key in r.fields <==> key in ob.fields) && (key in ob.fields ==> r.fields[key] == ob.fields[key]))
      && ("settings" in ob.fields && ob.fields["settings"].Obj? ==>
            forall key :: key != "domainStrategy" ==>
              (key in r.fields["settings"].fields <==> key in ob.fields["settings"].fields) &&
              (key in ob.fields["settings"].fields ==> r.fields["settings"].fields[key] == ob.fields["settings"].fields[key]))
  {
  }

  /** The first outbound keeps everything but a missing tag; the others are left alone. */
  lemma DefaultTagged(existing: seq<Json>)
    ensures var (out, tag) := TagDefault(existing);
      && |out| == |existing| && (forall i :: 1 <= i < |out| ==> out[i] == existing[i])
      && (existing != [] ==> Untagged(out[0]) == Untagged(existing[0]))
      && (existing != [] && existing[0].Obj? ==> TagOf(out[0]) == tag != "" && (TagOf(existing[0]) != "" ==> out[0] == existing[0]))
      && (existing == [] || !existing[0].Obj? ==> out == existing && tag == "")
  {
    if existing != [] && existing[0].Obj? {
      RetaggedSame(existing[0], DEFAULT_TAG);
    }
  }

  lemma {:induction false} NodesFrom(nodes: seq<Node>)
    ensures forall ob <- NodeOutbounds(nodes) :: exists n <- nodes :: Writable(n) && ob == WithTag(n.config.value, n.tag)
    ensures forall n <- nodes :: Writable(n) ==> WithTag(n.config.value, n.tag) in NodeOutbounds(nodes)
    ensures (forall i, j :: 0 <= i < j < |nodes| ==> nodes[i].id != nodes[j].id) ==>
      forall n <- nodes :: Writable(n) ==> n.id in UsableTags(nodes) && UsableTags(nodes)[n.id] == n.tag
  {
    if nodes != [] {
      var front, node := nodes[..|nodes| - 1], nodes[|nodes| - 1];
      assert nodes == front + [node];
      NodesFrom(front);
      hide Writable;
    }
  }

  /** A rule with a node as its way out leads to that node's own outbound, if no other has its tag. */
  lemma ProxyReached(existing: seq<Json>, nodes: seq<Node>, node: Node)
    requires node in nodes && Writable(node)
    requires forall ob <- TagDefault(existing).0 :: TagOf(ob) != node.tag
    requires forall n <- nodes :: n.tag == node.tag ==> n == node
    ensures FindTag(TagDefault(existing).0 + NodeOutbounds(nodes) + [BlockOutbound()], node.tag)
         == Some(WithTag(node.config.value, node.tag))
  {
    var outbounds := TagDefault(existing).0 + NodeOutbounds(nodes) + [BlockOutbound()];
    NodesFrom(nodes);
    FindTagFound(outbounds, node.tag);
    RetaggedSame(node.config.value, node.tag);
    hide TagDefault, NodeOutbounds, FindTag;
    assert WithTag(node.config.value, node.tag) in outbounds;
    var found := FindTag(outbounds, node.tag).value;
    assert found in NodeOutbounds(nodes) by {
      assert TagOf(BlockOutbound()) == RuleCompiler.BLOCK_TAG != node.tag;
    }
    var n :| n in nodes && Writable(n) && found == WithTag(n.config.value, n.tag);
    RetaggedSame(n.config.value, n.tag);
  }

  /** A blocking rule leads to the blackhole, unless the template has an outbound of the reserved tag. */
  lemma BlockedIsDropped(existing: seq<Json>, nodes: seq<Node>)
    requires forall ob <- existing :: TagOf(ob) != RuleCompiler.BLOCK_TAG
    ensures var found := FindTag(TagDefault(existing).0 + NodeOutbounds(nodes) + [BlockOutbound()], RuleCompiler.BLOCK_TAG);
      found.Some? && StringField(found.value, "protocol") == "blackhole"
  {
    var front := TagDefault(existing).0;
    var outbounds := front + NodeOutbounds(nodes) + [BlockOutbound()];
    NodesWritten(nodes);
    DefaultTagged(existing);
    assert DEFAULT_TAG != RuleCompiler.BLOCK_TAG;
    forall ob | ob in front
      ensures TagOf(ob) != RuleCompiler.BLOCK_TAG
    {
      var i :| 0 <= i < |front| && front[i] == ob;
      if i == 0 && existing[0].Obj? {
        RetaggedSame(existing[0], DEFAULT_TAG);
      }
    }
    FindTagFound(outbounds, RuleCompiler.BLOCK_TAG);
    hide TagDefault, NodeOutbounds, FindTag;
    assert BlockOutbound() in outbounds;
  }

  /** Within one matching pass the template decides first, then the geo rules, then the blocking rules, then the others. */
  lemma PlainRulesDecide(w: World, x: Inputs, c: Conn, resolved: bool)
    ensures FirstMatch(w, PlainRules(x), c, resolved) ==
      match FirstMatch(w, x.templateRules, c, resolved)
      case Some(tag) => Some(tag)
      case None =>
        match FirstMatch(w, x.geoRules, c, resolved)
        case Some(tag) => Some(tag)
        case None =>
          match RuleCompiler.Decision(w, TablesOf(x), x.dbRules, true, c, resolved)
          case Some(tag) => Some(tag)
          case None => RuleCompiler.Decision(w, TablesOf(x), x.dbRules, false, c, resolved)
  {
    var t := TablesOf(x);
    var blocks, routes := RuleCompiler.CompileAll(t, x.dbRules, true), RuleCompiler.CompileAll(t, x.dbRules, false);
    RuleCompiler.CompilationPreservesMeaning(w, t, x.dbRules, c, resolved);
    assert PlainRules(x) == x.templateRules + (x.geoRules + (blocks + routes));
    hide PlainRules, FirstMatch, RuleCompiler.CompileAll, RuleCompiler.Decision, TablesOf;
    FirstMatchConcat(w, x.templateRules, x.geoRules + (blocks + routes), c, resolved);
    FirstMatchConcat(w, x.geoRules, blocks + routes, c, resolved);
  }
}
