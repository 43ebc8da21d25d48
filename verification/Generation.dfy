/** What is generated meets what hot reload relies on: exchanging the pool of a running core changes no way out. */
module Generation {
  import opened Collections
  import opened Json
  import opened MeterTags
  import opened Metering
  import opened Router
  import opened TagTables
  import opened HotReload
  import opened MeterOnly
  import Injector
  import RuleCompiler

  /** The texts of a configuration hold a generated one; reading the rules is the core's own. */
  ghost predicate Holds(k: Codec, read: Json -> Rule, text: Config, cfg: Injector.Config) {
    && k.whole(text.outbounds) == Some(Arr(cfg.outbounds))
    && ReadAll(read, RulesOf(k, text.routing)) == cfg.rules
    && RoutingStrategy(k, text.routing) == StrategyOf(cfg.strategy)
  }

  /** The template and the geo rules keep away from metering tags, and nodes have a tag. */
  ghost predicate TemplateFree(x: Injector.Inputs) {
    && (forall ob <- x.templateOutbounds :: !IsMeterTag(TagOf(ob)))
    && (forall r <- x.templateRules + x.geoRules :: !IsMeterTag(r.outboundTag))
    && (forall node <- x.nodes :: node.tag != "")
  }

  lemma PlainTagsFree(x: Injector.Inputs)
    requires TemplateFree(x)
    ensures forall ob <- Injector.PlainOutbounds(x) :: !IsMeterTag(TagOf(ob))
  {
    Injector.NodesWritten(x.nodes);
    Injector.ReservedNotMeter();
    var front := Injector.TagDefault(x.templateOutbounds).0;
    assert forall ob <- front :: !IsMeterTag(TagOf(ob)) by {
      if x.templateOutbounds != [] && x.templateOutbounds[0].Obj? {
        RetaggedSame(x.templateOutbounds[0], Injector.DEFAULT_TAG);
      }
    }
    hide IsMeterTag, TagOf;
  }

  lemma KnownNotMeter(x: Injector.Inputs, tag: string)
    requires TemplateFree(x) && RuleCompiler.Known(Injector.TablesOf(x), tag)
    ensures !IsMeterTag(tag)
  {
    Injector.NodesWritten(x.nodes);
    Injector.ReservedNotMeter();
    hide IsMeterTag;
    if x.templateOutbounds != [] {
      assert x.templateOutbounds[0] in x.templateOutbounds;
    }
  }

  lemma PlainRulesFree(x: Injector.Inputs)
    requires TemplateFree(x)
    ensures forall r <- Injector.PlainRules(x) :: !IsMeterTag(r.outboundTag)
  {
    var t := Injector.TablesOf(x);
    RuleCompiler.GeneratedShape(t, x.dbRules, true);
    RuleCompiler.GeneratedShape(t, x.dbRules, false);
    hide IsMeterTag, RuleCompiler.CompileAll, RuleCompiler.Known, Injector.TablesOf;
    forall r | r in Injector.PlainRules(x)
      ensures !IsMeterTag(r.outboundTag)
    {
      if r !in x.templateRules + x.geoRules {
        KnownNotMeter(x, r.outboundTag);
      }
    }
  }

  /** The rules generated from a template without metering tags have the shape that hot reload expects. */
  lemma RulesGenerated(k: Codec, read: Json -> Rule, text: Config, x: Injector.Inputs, kept: seq<MeterEntry>, cfg: Injector.Config)
    requires TemplateFree(x) && Injector.IsGenerated(x, kept, cfg) && Holds(k, read, text, cfg)
    ensures var n := |Injector.PlainRules(x)|;
      n <= |cfg.rules| && Generated(k, read, text.routing, cfg.rules[..n], cfg.rules[n..], kept)
  {
    var n := |Injector.PlainRules(x)|;
    PlainRulesFree(x);
    hide IsMeterTag, MeterRules, Injector.PlainRules, RulesOf, RoutingStrategy;
    assert cfg.rules[..n] == Injector.PlainRules(x);
    assert cfg.rules == cfg.rules[..n] + cfg.rules[n..];
  }

  lemma ItemTag(v: Json)
    ensures OutboundItem(v) == Item(TagOf(v), Out(v))
  {
  }

  lemma FirstTagged(x: Injector.Inputs)
    requires TemplateFree(x)
    ensures var plain := Injector.PlainOutbounds(x); plain[0].Obj? ==> TagOf(plain[0]) != ""
  {
    if x.templateOutbounds != [] && x.templateOutbounds[0].Obj? {
      RetaggedSame(x.templateOutbounds[0], Injector.DEFAULT_TAG);
    } else if x.templateOutbounds == [] {
      NodesTagged(x.nodes);
    }
  }

  lemma {:induction false} NodesTagged(nodes: seq<Injector.Node>)
    requires forall node <- nodes :: node.tag != ""
    ensures forall ob <- Injector.NodeOutbounds(nodes) :: TagOf(ob) != ""
  {
    if nodes != [] {
      var front, node := nodes[..|nodes| - 1], nodes[|nodes| - 1];
      assert node in nodes && forall n <- front :: n in nodes;
      NodesTagged(front);
      if Injector.Writable(node) {
        RetaggedSame(node.config.value, node.tag);
      }
    }
  }

  /** The outbounds are the plain ones after the DNS step, and then copies of the first of them. */
  lemma OutboundParts(x: Injector.Inputs, kept: seq<MeterEntry>, cfg: Injector.Config)
    requires Injector.IsGenerated(x, kept, cfg)
    ensures var plain := if x.dnsServers then Injector.Freed(Injector.PlainOutbounds(x)) else Injector.PlainOutbounds(x);
      && |plain| == |Injector.PlainOutbounds(x)| > 0 && (plain[0].Obj? <==> Injector.PlainOutbounds(x)[0].Obj?)
      && (forall i :: 0 <= i < |plain| ==> TagOf(plain[i]) == TagOf(Injector.PlainOutbounds(x)[i]))
      && cfg.outbounds == plain + if plain[0].Obj? then Clones(plain[0], kept) else []
  {
    var bare := Injector.PlainOutbounds(x);
    Injector.FreedTags(bare);
    if bare[0].Obj? {
      Injector.DnsCommutesWithCloning(bare, kept);
    }
    hide TagOf, Injector.PlainOutbounds, Injector.PlainRules, Clones, MeterRules, Injector.WithStrategy, Injector.FreedRest;
    assert bare + [] == bare && Injector.Freed(bare) + [] == Injector.Freed(bare);
  }

  /** Every outbound that is generated with a metering tag is a copy of the first one, which has another tag. */
  lemma CopiesOfFirst(x: Injector.Inputs, kept: seq<MeterEntry>, cfg: Injector.Config, i: nat)
    requires TemplateFree(x) && Injector.IsGenerated(x, kept, cfg) && i < |cfg.outbounds|
    ensures !IsMeterTag(TagOf(cfg.outbounds[0]))
    ensures IsMeterTag(TagOf(cfg.outbounds[i])) ==>
      Untagged(cfg.outbounds[i]) == Untagged(cfg.outbounds[0]) && TagOf(cfg.outbounds[0]) != ""
  {
    PlainTagsFree(x);
    OutboundParts(x, kept, cfg);
    FirstTagged(x);
    var bare := Injector.PlainOutbounds(x);
    var plain := if x.dnsServers then Injector.Freed(bare) else bare;
    hide TemplateFree, Injector.IsGenerated, Injector.PlainOutbounds, Injector.Freed, TagOf, IsMeterTag, EntryTag;
    assert bare[0] in bare && cfg.outbounds[0] == plain[0];
    if i < |plain| {
      assert bare[i] in bare;
    } else {
      var e := kept[i - |plain|];
      assert cfg.outbounds[i] == WithTag(plain[0], EntryTag(e));
      RetaggedSame(plain[0], EntryTag(e));
    }
  }

  /** And so the core that starts with it is metered: its default has no metering tag, and all others are its copies. */
  lemma LoadedIsMetered(k: Codec, read: Json -> Rule, text: Config, x: Injector.Inputs, kept: seq<MeterEntry>, cfg: Injector.Config)
    requires TemplateFree(x) && Injector.IsGenerated(x, kept, cfg) && Holds(k, read, text, cfg) && !RepeatsTag(cfg.outbounds)
    ensures Metered(Load(k, text))
  {
    OutboundParts(x, kept, cfg);
    var core, items := Load(k, text), Outbounds(k, text.outbounds);
    assert OutboundList(k, text.outbounds) == cfg.outbounds;
    hide Injector.IsGenerated, TemplateFree, IsMeterTag, Untagged, OutboundList;
    forall i | 0 <= i < |items|
      ensures items[i] == Item(TagOf(cfg.outbounds[i]), Out(cfg.outbounds[i]))
    {
      ItemTag(cfg.outbounds[i]);
    }
    hide TagOf, OutboundItem, Load;
    ByTagKeys(items, 0);
    CopiesOfFirst(x, kept, cfg, 0);
    FirstInTable(k, text, cfg, items);
    forall t | t in core.outbounds && IsMeterTag(t)
      ensures Bare(core.outbounds[t]) == Bare(core.outbounds[core.first.value])
    {
      var i := ByTagOnly(items, t);
      CopiesOfFirst(x, kept, cfg, i);
    }
  }

  lemma FirstInTable(k: Codec, text: Config, cfg: Injector.Config, items: seq<Item>)
    requires items == Outbounds(k, text.outbounds) && |items| == |cfg.outbounds| > 0 && !RepeatsTag(cfg.outbounds)
    requires forall i :: 0 <= i < |items| ==> items[i] == Item(TagOf(cfg.outbounds[i]), Out(cfg.outbounds[i]))
    ensures var core := Load(k, text);
      && core.first == Some(TagOf(cfg.outbounds[0])) && core.outbounds == ByTag(items)
      && core.first.value in core.outbounds
      && (TagOf(cfg.outbounds[0]) != "" ==> core.outbounds[core.first.value] == Out(cfg.outbounds[0]))
  {
    ByTagKeys(items, 0);
    hide TagOf, ByTag;
    var first := TagOf(cfg.outbounds[0]);
    var j := ByTagOnly(items, first);
    assert items[j].tag == first;
  }

  /**
   Generation and hot reload together: if two configurations were generated from templates without metering tags, the
   core starts with either, and the change between them is one that only touches metering tags, then applying it to the
   running core changes no connection's way out, up to the outbound's tag.
   */
  lemma GeneratedSwapTransparent(k: Codec, w: World, read: Json -> Rule, before: Config, after: Config,
                                 x: Injector.Inputs, kept: seq<MeterEntry>, cfg: Injector.Config,
                                 x': Injector.Inputs, kept': seq<MeterEntry>, cfg': Injector.Config, c: Conn)
    requires Sound(k) && Lawful(w) && Reads(read)
    requires TemplateFree(x) && Injector.IsGenerated(x, kept, cfg) && Holds(k, read, before, cfg) && !RepeatsTag(cfg.outbounds)
    requires TemplateFree(x') && Injector.IsGenerated(x', kept', cfg') && Holds(k, read, after, cfg') && !RepeatsTag(cfg'.outbounds)
    requires Accepts(k, before, after) && TouchesOnly(k, before, after, OpsOf(k, before, after), IsMeterTag)
    ensures Metered(Load(k, before)) && Apply(k, Load(k, before), OpsOf(k, before, after)) == Some(Load(k, after))
    ensures Metered(Load(k, after))
    ensures Bare(SentTo(Load(k, before), Pick(w, StrategyOf(cfg.strategy), cfg.rules, c)))
         == Bare(SentTo(Load(k, after), Pick(w, StrategyOf(cfg'.strategy), cfg'.rules, c)))
  {
    RulesGenerated(k, read, before, x, kept, cfg);
    RulesGenerated(k, read, after, x', kept', cfg');
    LoadedIsMetered(k, read, before, x, kept, cfg);
    LoadedIsMetered(k, read, after, x', kept', cfg');
    ApplyReaches(k, before, after);
    var n, n' := |Injector.PlainRules(x)|, |Injector.PlainRules(x')|;
    PoolSwapTransparent(k, w, read, before, after, cfg.rules[..n], cfg.rules[n..], kept, cfg'.rules[..n'], cfg'.rules[n'..], kept', c);
    hide TemplateFree, Injector.IsGenerated, Accepts, TouchesOnly, Metered, Generated, Load, Apply, Sound, Lawful, Reads;
  }
}
