/**
 Hot reload: the operations that carry a running core from one configuration to another, or the decision that only
 a restart will do.
 */
module HotReload {
  import opened Collections
  import opened Json
  import opened Router
  import opened TagTables

  const API_TAG := "api"

  // ----- what the configuration texts mean

  /** JSON reading is a library's: the first value of a text, and the value of a whole text. */
  datatype Codec = Codec(first: string -> Option<Json>, whole: string -> Option<Json>)

  predicate Blank(raw: string) {
    forall c <- raw :: c in " \t\n\r"
  }

  ghost predicate Sound(k: Codec) {
    && (forall s :: k.whole(s).Some? ==> k.first(s) == k.whole(s))
    && (forall s :: Blank(s) ==> k.first(s).None?)
  }

  datatype Section = Nothing | Value(v: Json) | Unreadable(text: string)

  function Meaning(k: Codec, raw: string): Section {
    if Blank(raw) then Nothing
    else
      match k.first(raw)
      case Some(v) => Value(v)
      case None => Unreadable(raw)
  }

  /** Decoding and encoding again; None when the text does not decode, Some(None) for a blank one. */
  function Normalize(k: Codec, raw: string): Option<Option<Json>> {
    if Blank(raw) then Some(None)
    else
      match k.first(raw)
      case Some(v) => Some(Some(v))
      case None => None
  }

  predicate RawEqualNormalized(k: Codec, a: string, b: string) {
    a == b || (Normalize(k, a).Some? && Normalize(k, b).Some? && Normalize(k, a) == Normalize(k, b))
  }

  /** The comparison is neither too coarse nor too fine: it holds exactly for texts of one meaning. */
  lemma EqualMeansSame(k: Codec, a: string, b: string)
    ensures RawEqualNormalized(k, a, b) <==> Meaning(k, a) == Meaning(k, b)
  {
  }

  // ----- configurations

  datatype Config = Config(
    log: string, routing: string, dns: string, inbounds: seq<InboundConfig>, outbounds: string, transport: string,
    policy: string, api: string, stats: string, reverse: string, fakeDns: string)

  /** The sections without a reload interface. */
  function Fixed(cfg: Config): seq<string> {
    [cfg.log, cfg.dns, cfg.transport, cfg.policy, cfg.api, cfg.stats, cfg.reverse, cfg.fakeDns]
  }

  /** Encoding an inbound needs every raw field to be JSON; an empty one is written as null. */
  predicate Encodable(k: Codec, ib: InboundConfig) {
    && (ib.listen == "" || k.whole(ib.listen).Some?)
    && (ib.settings == "" || k.whole(ib.settings).Some?)
    && (ib.streamSettings == "" || k.whole(ib.streamSettings).Some?)
    && (ib.sniffing == "" || k.whole(ib.sniffing).Some?)
  }

  /** Unreadable stream settings count as Reality. */
  predicate UsesReality(k: Codec, ib: InboundConfig) {
    if ib.streamSettings == "" then false
    else
      match k.whole(ib.streamSettings)
      case Some(Null) => false
      case Some(Obj(fields)) =>
        if "security" !in fields || fields["security"].Null? then false
        else fields["security"].Str? ==> Lower(fields["security"].s) == "reality"
      case _ => true
  }

  /** The tag an outbound is decoded with; a tag that is no string fails. */
  function HeadTag(v: Json): Option<string> {
    match v
    case Null => Some("")
    case Obj(fields) =>
      if "tag" !in fields || fields["tag"].Null? then Some("")
      else if fields["tag"].Str? then Some(fields["tag"].s) else None
    case _ => None
  }

  function Inbounds(cfg: Config): (items: seq<Item>)
    ensures |items| == |cfg.inbounds| && forall i :: 0 <= i < |items| ==> items[i] == Item(cfg.inbounds[i].tag, In(cfg.inbounds[i]))
  {
    seq(|cfg.inbounds|, i requires 0 <= i < |cfg.inbounds| => Item(cfg.inbounds[i].tag, In(cfg.inbounds[i])))
  }

  /** The outbounds of a text, whatever it is; only a readable list of tagged objects is acted upon. */
  function OutboundList(k: Codec, raw: string): seq<Json> {
    match k.whole(raw)
    case Some(Arr(items)) => items
    case _ => []
  }

  function OutboundItem(v: Json): Item {
    Item(if HeadTag(v).Some? then HeadTag(v).value else "", Out(v))
  }

  function Outbounds(k: Codec, raw: string): (items: seq<Item>)
    ensures |items| == |OutboundList(k, raw)| && forall i :: 0 <= i < |items| ==> items[i] == OutboundItem(OutboundList(k, raw)[i])
  {
    var list := OutboundList(k, raw);
    seq(|list|, i requires 0 <= i < |list| => OutboundItem(list[i]))
  }

  /** A list the decoder accepts: every outbound readable, none but the first untagged, no tag twice. */
  predicate Decodable(k: Codec, raw: string) {
    var items := Outbounds(k, raw);
    && (k.whole(raw).Some? && (k.whole(raw).value.Arr? || k.whole(raw).value.Null?))
    && (forall v <- OutboundList(k, raw) :: HeadTag(v).Some?)
    && (forall i :: 1 <= i < |items| ==> items[i].tag != "")
    && UniqueTags(items)
  }

  // ----- what the core holds

  datatype Routing = Routing(rest: Section, rules: Option<Json>, balancers: Option<Json>)

  function Member(v: Section, key: string): Option<Json> {
    if v.Value? && v.v.Obj? && key in v.v.fields then Some(v.v.fields[key]) else None
  }

  function RestOf(v: Section): Section {
    if v.Value? && v.v.Obj? then Value(Obj(v.v.fields - {"rules", "balancers"})) else v
  }

  /**
   A running core: the inbounds and outbounds by tag (an untagged default outbound under the empty tag), which
   outbound is the default, the sections fixed at start, and the routing.
   */
  datatype Core = Core(
    inbounds: map<string, Body>, first: Option<string>, outbounds: map<string, Body>, fixed: seq<Section>, routing: Routing)

  function RoutingState(k: Codec, raw: string): Routing {
    var v := Meaning(k, raw);
    Routing(RestOf(v), Member(v, "rules"), Member(v, "balancers"))
  }

  /** The core a start with this configuration gives. */
  function Load(k: Codec, cfg: Config): Core {
    var items := Outbounds(k, cfg.outbounds);
    Core(ByTag(Inbounds(cfg)), if items == [] then None else Some(items[0].tag), ByTag(items),
         FixedState(k, cfg), RoutingState(k, cfg.routing))
  }

  function FixedState(k: Codec, cfg: Config): seq<Section> {
    seq(|Fixed(cfg)|, i requires 0 <= i < |Fixed(cfg)| => Meaning(k, Fixed(cfg)[i]))
  }

  // ----- the operations

  datatype Ops = Ops(
    removedInbounds: seq<string>, addedInbounds: seq<Item>, removedOutbounds: seq<string>, addedOutbounds: seq<Item>,
    routing: Option<string>)

  /** Removing the default outbound leaves the core without one. */
  function DelOutbounds(core: Core, tags: seq<string>): Option<Core> {
    if tags == [] then Some(core)
    else
      var t := tags[|tags| - 1];
      match DelOutbounds(core, tags[..|tags| - 1])
      case None => None
      case Some(c) =>
        if t in c.outbounds then Some(c.(outbounds := c.outbounds - {t}, first := if c.first == Some(t) then None else c.first))
        else None
  }

  /** An outbound added to a core without a default becomes the default. */
  function AddOutbounds(core: Core, items: seq<Item>): Option<Core> {
    if items == [] then Some(core)
    else
      var x := items[|items| - 1];
      match AddOutbounds(core, items[..|items| - 1])
      case None => None
      case Some(c) =>
        if x.tag in c.outbounds then None
        else Some(c.(outbounds := c.outbounds[x.tag := x.body], first := if c.first.None? then Some(x.tag) else c.first))
  }

  /** Inbounds out and in, outbounds out and in, routing last; any failing step fails the whole. */
  function Apply(k: Codec, core: Core, ops: Ops): Option<Core> {
    match Swap(core.inbounds, ops.removedInbounds, ops.addedInbounds)
    case None => None
    case Some(inbounds) =>
      match DelOutbounds(core.(inbounds := inbounds), ops.removedOutbounds)
      case None => None
      case Some(c) =>
        match AddOutbounds(c, ops.addedOutbounds)
        case None => None
        case Some(d) =>
          match ops.routing
          case None => Some(d)
          case Some(raw) =>
            var v := Meaning(k, raw);
            Some(d.(routing := d.routing.(rules := Member(v, "rules"), balancers := Member(v, "balancers"))))
  }

  // ----- which changes are accepted, and what they take

  predicate FixedSame(k: Codec, before: Config, after: Config) {
    FixedState(k, before) == FixedState(k, after)
  }

  predicate Named(cfg: Config) {
    (forall ib <- cfg.inbounds :: ib.tag != "") && UniqueTags(Inbounds(cfg))
  }

  /** An inbound may go; it may only come, or come back changed, when it can be rebuilt at run time. */
  predicate Rebuildable(k: Codec, ib: InboundConfig) {
    !UsesReality(k, ib) && Encodable(k, ib)
  }

  predicate GoesWell(k: Codec, ib: InboundConfig, target: map<string, Body>) {
    !Kept(Item(ib.tag, In(ib)), target) ==>
      && ib.tag != API_TAG
      && (ib.tag in target ==> target[ib.tag].In? && !UsesReality(k, ib) && Rebuildable(k, target[ib.tag].config))
  }

  predicate ComesWell(k: Codec, ib: InboundConfig, source: map<string, Body>) {
    ib.tag !in source ==> ib.tag != API_TAG && Rebuildable(k, ib)
  }

  predicate InboundsSwappable(k: Codec, before: Config, after: Config) {
    && Named(before) && Named(after)
    && (forall ib <- before.inbounds :: GoesWell(k, ib, ByTag(Inbounds(after))))
    && (forall ib <- after.inbounds :: ComesWell(k, ib, ByTag(Inbounds(before))))
  }

  predicate OutboundsSwappable(k: Codec, before: Config, after: Config) {
    before.outbounds == after.outbounds ||
    (&& Decodable(k, before.outbounds) && Decodable(k, after.outbounds)
     && OutboundList(k, before.outbounds) != [] && OutboundList(k, after.outbounds) != []
     && OutboundList(k, before.outbounds)[0] == OutboundList(k, after.outbounds)[0])
  }

  predicate IsRouting(v: Section) {
    v.Value? && (v.v.Obj? || v.v.Null?)
  }

  predicate RoutingSwappable(k: Codec, before: Config, after: Config) {
    var b, a := Meaning(k, before.routing), Meaning(k, after.routing);
    b == a || (IsRouting(b) && IsRouting(a) && RestOf(b) == RestOf(a))
  }

  predicate Accepts(k: Codec, before: Config, after: Config) {
    && FixedSame(k, before, after) && InboundsSwappable(k, before, after)
    && OutboundsSwappable(k, before, after) && RoutingSwappable(k, before, after)
  }

  function OpsOf(k: Codec, before: Config, after: Config): Ops {
    var inB, inA := Inbounds(before), Inbounds(after);
    var outB, outA := Outbounds(k, before.outbounds), Outbounds(k, after.outbounds);
    var sameOut := before.outbounds == after.outbounds;
    Ops(Removed(inB, ByTag(inA)), Replaced(inB, ByTag(inA)) + Fresh(inA, ByTag(inB)),
        if sameOut then [] else Removed(outB, ByTag(outA)),
        if sameOut then [] else Replaced(outB, ByTag(outA)) + Fresh(outA, ByTag(outB)),
        if Meaning(k, before.routing) == Meaning(k, after.routing) then None else Some(after.routing))
  }

  /** Nothing may change, section by section, that a running core cannot reload. */
  lemma FixedExactly(k: Codec, before: Config, after: Config)
    ensures FixedSame(k, before, after) <==>
      && Meaning(k, before.log) == Meaning(k, after.log) && Meaning(k, before.dns) == Meaning(k, after.dns)
      && Meaning(k, before.transport) == Meaning(k, after.transport) && Meaning(k, before.policy) == Meaning(k, after.policy)
      && Meaning(k, before.api) == Meaning(k, after.api) && Meaning(k, before.stats) == Meaning(k, after.stats)
      && Meaning(k, before.reverse) == Meaning(k, after.reverse) && Meaning(k, before.fakeDns) == Meaning(k, after.fakeDns)
  {
    hide Meaning;
    var b, a := FixedState(k, before), FixedState(k, after);
    forall i | 0 <= i < 8
      ensures b[i] == Meaning(k, Fixed(before)[i]) && a[i] == Meaning(k, Fixed(after)[i])
    {
    }
    assert FixedSame(k, before, after) <==> forall i :: 0 <= i < 8 ==> b[i] == a[i];
    assert Fixed(before)[0] == before.log && Fixed(before)[1] == before.dns && Fixed(before)[2] == before.transport;
    assert Fixed(before)[3] == before.policy && Fixed(before)[4] == before.api && Fixed(before)[5] == before.stats;
    assert Fixed(before)[6] == before.reverse && Fixed(before)[7] == before.fakeDns;
    assert Fixed(after)[0] == after.log && Fixed(after)[1] == after.dns && Fixed(after)[2] == after.transport;
    assert Fixed(after)[3] == after.policy && Fixed(after)[4] == after.api && Fixed(after)[5] == after.stats;
    assert Fixed(after)[6] == after.reverse && Fixed(after)[7] == after.fakeDns;
  }

  // ----- applying the operations reaches the new configuration

  lemma {:induction false} DelIsRemove(core: Core, tags: seq<string>)
    requires core.first.Some? && core.first.value !in tags
    ensures DelOutbounds(core, tags) ==
      match RemoveAll(core.outbounds, tags) { case Some(m) => Some(core.(outbounds := m)) case None => None }
  {
    if tags != [] {
      assert tags == tags[..|tags| - 1] + [tags[|tags| - 1]];
      DelIsRemove(core, tags[..|tags| - 1]);
    }
  }

  lemma {:induction false} AddIsInsert(core: Core, items: seq<Item>)
    requires core.first.Some?
    ensures AddOutbounds(core, items) ==
      match InsertAll(core.outbounds, items) { case Some(m) => Some(core.(outbounds := m)) case None => None }
  {
    if items != [] {
      AddIsInsert(core, items[..|items| - 1]);
    }
  }

  /** The default outbound is unchanged, so its tag is never removed. */
  lemma DefaultStays(k: Codec, before: Config, after: Config)
    requires OutboundsSwappable(k, before, after) && before.outbounds != after.outbounds
    ensures var b, a := Outbounds(k, before.outbounds), Outbounds(k, after.outbounds);
      b != [] && a != [] && b[0] == a[0] && b[0].tag !in Removed(b, ByTag(a))
  {
    var b, a := Outbounds(k, before.outbounds), Outbounds(k, after.outbounds);
    hide Outbounds;
    RemovedTags(b, ByTag(a));
    ChangedTags(b, ByTag(a));
    ByTagHas(a, 0);
    ByTagHas(b, 0);
  }

  /**
   Whenever a hot diff is offered, every one of its steps succeeds on the core that runs the old configuration, and
   the core ends as a start with the new configuration would leave it.
   */
  lemma ApplyReaches(k: Codec, before: Config, after: Config)
    requires Accepts(k, before, after)
    ensures Apply(k, Load(k, before), OpsOf(k, before, after)) == Some(Load(k, after))
  {
    var core, ops := Load(k, before), OpsOf(k, before, after);
    SwapReaches(Inbounds(before), Inbounds(after));
    var swapped := core.(inbounds := ByTag(Inbounds(after)));
    OutboundsReach(k, before, after, swapped);
    var moved := swapped.(outbounds := Load(k, after).outbounds, first := Load(k, after).first);
    assert core.fixed == Load(k, after).fixed;
    hide Swap, DelOutbounds, AddOutbounds, ByTag, Removed, Replaced, Fresh, InboundsSwappable, OutboundsSwappable;
    RoutingReaches(k, before, after);
  }

  lemma OutboundsReach(k: Codec, before: Config, after: Config, core: Core)
    requires OutboundsSwappable(k, before, after)
    requires core.outbounds == Load(k, before).outbounds && core.first == Load(k, before).first
    ensures var ops, goal := OpsOf(k, before, after), Load(k, after);
      && DelOutbounds(core, ops.removedOutbounds).Some?
      && AddOutbounds(DelOutbounds(core, ops.removedOutbounds).value, ops.addedOutbounds)
         == Some(core.(outbounds := goal.outbounds, first := goal.first))
  {
    if before.outbounds != after.outbounds {
      var b, a := Outbounds(k, before.outbounds), Outbounds(k, after.outbounds);
      var tags, items := Removed(b, ByTag(a)), Replaced(b, ByTag(a)) + Fresh(a, ByTag(b));
      DefaultStays(k, before, after);
      SwapReaches(b, a);
      hide Removed, Replaced, Fresh, ByTag, RemoveAll, InsertAll, Outbounds;
      DelIsRemove(core, tags);
      AddIsInsert(DelOutbounds(core, tags).value, items);
    }
  }

  lemma RoutingReaches(k: Codec, before: Config, after: Config)
    requires RoutingSwappable(k, before, after)
    ensures var b, a := RoutingState(k, before.routing), RoutingState(k, after.routing);
      var ops := OpsOf(k, before, after);
      if ops.routing.None? then b == a
      else a == b.(rules := Member(Meaning(k, ops.routing.value), "rules"), balancers := Member(Meaning(k, ops.routing.value), "balancers"))
  {
  }

  /** The api inbound, which carries the control connection itself, is in no operation. */
  lemma ApiUntouched(k: Codec, before: Config, after: Config)
    requires Accepts(k, before, after)
    ensures var ops := OpsOf(k, before, after);
      API_TAG !in ops.removedInbounds && forall x <- ops.addedInbounds :: x.tag != API_TAG
  {
    var b, a := Inbounds(before), Inbounds(after);
    RemovedTags(b, ByTag(a));
    ReplacedItems(b, ByTag(a));
    FreshItems(a, ByTag(b));
    hide Removed, Replaced, Fresh, ByTag, UsesReality, Encodable, Kept;
    ApiKept(k, before, after);
  }

  lemma ApiKept(k: Codec, before: Config, after: Config)
    requires InboundsSwappable(k, before, after)
    ensures !Changed(Inbounds(before), ByTag(Inbounds(after)), API_TAG)
    ensures forall x <- Inbounds(after) :: x.tag == API_TAG ==> x.tag in ByTag(Inbounds(before))
  {
    var b, a := Inbounds(before), Inbounds(after);
    forall x | x in b && x.tag == API_TAG
      ensures Kept(x, ByTag(a))
    {
      assert GoesWell(k, x.body.config, ByTag(a));
    }
    forall x | x in a && x.tag == API_TAG
      ensures x.tag in ByTag(b)
    {
      assert ComesWell(k, x.body.config, ByTag(b));
    }
  }

  /** No operation builds a Reality inbound at run time, nor brings one back as something else. */
  lemma RealityNeverRebuilt(k: Codec, before: Config, after: Config, ib: InboundConfig)
    requires Accepts(k, before, after) && UsesReality(k, ib)
    ensures var ops := OpsOf(k, before, after);
      && Item(ib.tag, In(ib)) !in ops.addedInbounds
      && (ib in before.inbounds && ib.tag in ops.removedInbounds ==> forall x <- ops.addedInbounds :: x.tag != ib.tag)
  {
    var b, a := Inbounds(before), Inbounds(after);
    var source, target := ByTag(b), ByTag(a);
    RemovedTags(b, target);
    ReplacedItems(b, target);
    FreshItems(a, source);
    TablesAgree(b);
    hide Removed, Replaced, Fresh, ByTag, UsesReality, Encodable;
    forall x | x in Replaced(b, target) + Fresh(a, source)
      ensures x.body.In? ==> !UsesReality(k, x.body.config)
    {
      AddedIsRebuildable(k, before, after, x);
    }
    if ib in before.inbounds && ib.tag in Removed(b, target) {
      ListedInbound(before, ib);
      assert Item(ib.tag, In(ib)) in b && Changed(b, target, ib.tag);
      assert GoesWell(k, ib, target);
      assert ib.tag !in target by {
        var y :| y in b && y.tag == ib.tag && !Kept(y, target);
        assert source[y.tag] == y.body == In(ib);
      }
    }
  }

  lemma AddedIsRebuildable(k: Codec, before: Config, after: Config, x: Item)
    requires InboundsSwappable(k, before, after)
    requires x in OpsOf(k, before, after).addedInbounds
    ensures x.body.In? && Rebuildable(k, x.body.config)
  {
    var b, a := Inbounds(before), Inbounds(after);
    ReplacedItems(b, ByTag(a));
    FreshItems(a, ByTag(b));
    hide Removed, Replaced, Fresh, ByTag, Rebuildable, UsesReality;
    if x in Fresh(a, ByTag(b)) {
      assert ComesWell(k, x.body.config, ByTag(b));
    } else {
      var y :| y in b && y.tag == x.tag && !Kept(y, ByTag(a));
      assert GoesWell(k, y.body.config, ByTag(a));
    }
  }

  lemma ListedInbound(cfg: Config, ib: InboundConfig)
    requires ib in cfg.inbounds
    ensures Item(ib.tag, In(ib)) in Inbounds(cfg)
  {
    var i :| 0 <= i < |cfg.inbounds| && cfg.inbounds[i] == ib;
    assert Inbounds(cfg)[i] == Item(ib.tag, In(ib));
  }

  // ----- the computation

  class HotDiff {
    var removedInboundTags: seq<string>
    var addedInbounds: seq<Item>
    var removedOutboundTags: seq<string>
    var addedOutbounds: seq<Item>
    var routingConfig: Option<string>

    ghost function Contents(): Ops
      reads this
    {
      Ops(removedInboundTags, addedInbounds, removedOutboundTags, addedOutbounds, routingConfig)
    }

    constructor ()
      ensures Contents() == Ops([], [], [], [], None)
    {
      removedInboundTags, addedInbounds, removedOutboundTags, addedOutbounds := [], [], [], [];
      routingConfig := None;
    }

    predicate Empty()
      reads this
    {
      |removedInboundTags| == 0 && |addedInbounds| == 0 && |removedOutboundTags| == 0 && |addedOutbounds| == 0 &&
      routingConfig.None?
    }
  }

  lemma IndexStep(items: seq<Item>, i: nat)
    requires i < |items| && UniqueTags(items[..i])
    ensures ByTag(items[..i + 1]) == ByTag(items[..i])[items[i].tag := items[i].body]
    ensures if items[i].tag in ByTag(items[..i]) then !UniqueTags(items) else UniqueTags(items[..i + 1])
  {
    assert items[..i + 1][..i] == items[..i] && items[..i + 1] == items[..i] + [items[i]];
    if items[i].tag in ByTag(items[..i]) {
      var j := ByTagOnly(items[..i], items[i].tag);
      assert items[j].tag == items[i].tag;
    } else {
      TablesAgree(items[..i]);
      hide ByTag;
      SnocUnique(items[..i], items[i]);
    }
  }

  method InboundsByTag(cfg: Config) returns (byTag: map<string, Body>, ok: bool)
    ensures ok <==> Named(cfg)
    ensures ok ==> byTag == ByTag(Inbounds(cfg))
  {
    ghost var items := Inbounds(cfg);
    byTag, ok := map[], true;
    for i := 0 to |cfg.inbounds|
      invariant byTag == ByTag(items[..i]) && UniqueTags(items[..i])
      invariant forall j :: 0 <= j < i ==> cfg.inbounds[j].tag != ""
    {
      var ib := cfg.inbounds[i];
      if ib.tag == "" {
        assert ib in cfg.inbounds;
        return map[], false;
      }
      hide ByTag, UniqueTags;
      IndexStep(items, i);
      if ib.tag in byTag {
        return map[], false;
      }
      byTag := byTag[ib.tag := In(ib)];
    }
    assert items[..|items|] == items;
  }

  lemma EmptyWalk(target: map<string, Body>)
    ensures Removed([], target) == [] && Replaced([], target) == []
  {
  }

  lemma WalkStep(items: seq<Item>, i: nat, target: map<string, Body>)
    requires i < |items|
    ensures Removed(items[..i + 1], target) == Removed(items[..i], target) + if Kept(items[i], target) then [] else [items[i].tag]
    ensures Replaced(items[..i + 1], target) == Replaced(items[..i], target) +
      if !Kept(items[i], target) && items[i].tag in target then [Item(items[i].tag, target[items[i].tag])] else []
  {
    assert items[..i + 1][..i] == items[..i];
  }

  /** Old inbounds that changed or went. */
  method DiffOldInbounds(k: Codec, before: Config, newByTag: map<string, Body>, diff: HotDiff) returns (ok: bool)
    requires forall t <- newByTag :: newByTag[t].In?
    modifies diff`removedInboundTags, diff`addedInbounds
    ensures ok <==> forall ib <- before.inbounds :: GoesWell(k, ib, newByTag)
    ensures ok ==> diff.removedInboundTags == old(diff.removedInboundTags) + Removed(Inbounds(before), newByTag)
    ensures ok ==> diff.addedInbounds == old(diff.addedInbounds) + Replaced(Inbounds(before), newByTag)
  {
    hide UsesReality, Encodable, Removed, Replaced;
    ghost var items := Inbounds(before);
    assert Removed(items[..0], newByTag) == [] && Replaced(items[..0], newByTag) == [] by { EmptyWalk(newByTag); }
    for i := 0 to |before.inbounds|
      invariant forall j :: 0 <= j < i ==> GoesWell(k, before.inbounds[j], newByTag)
      invariant diff.removedInboundTags == old(diff.removedInboundTags) + Removed(items[..i], newByTag)
      invariant diff.addedInbounds == old(diff.addedInbounds) + Replaced(items[..i], newByTag)
    {
      var oldIb := before.inbounds[i];
      assert oldIb in before.inbounds;
      WalkStep(items, i, newByTag);
      var present := oldIb.tag in newByTag;
      if present && newByTag[oldIb.tag] == In(oldIb) {
        continue;
      }
      if oldIb.tag == API_TAG {
        return false;
      }
      if present && (UsesReality(k, oldIb) || UsesReality(k, newByTag[oldIb.tag].config)) {
        return false;
      }
      diff.removedInboundTags := diff.removedInboundTags + [oldIb.tag];
      if present {
        if !Encodable(k, newByTag[oldIb.tag].config) {
          return false;
        }
        diff.addedInbounds := diff.addedInbounds + [Item(oldIb.tag, newByTag[oldIb.tag])];
      }
    }
    assert items[..|items|] == items;
    return true;
  }

  /** New inbounds of a tag the old configuration does not have. */
  method DiffNewInbounds(k: Codec, after: Config, oldByTag: map<string, Body>, diff: HotDiff) returns (ok: bool)
    modifies diff`addedInbounds
    ensures ok <==> forall ib <- after.inbounds :: ComesWell(k, ib, oldByTag)
    ensures ok ==> diff.addedInbounds == old(diff.addedInbounds) + Fresh(Inbounds(after), oldByTag)
  {
    hide UsesReality, Encodable;
    ghost var items := Inbounds(after);
    for i := 0 to |after.inbounds|
      invariant forall j :: 0 <= j < i ==> ComesWell(k, after.inbounds[j], oldByTag)
      invariant diff.addedInbounds == old(diff.addedInbounds) + Fresh(items[..i], oldByTag)
    {
      var newIb := after.inbounds[i];
      assert newIb in after.inbounds;
      assert items[..i + 1][..i] == items[..i];
      if newIb.tag in oldByTag {
        continue;
      }
      if newIb.tag == API_TAG {
        return false;
      }
      if UsesReality(k, newIb) {
        return false;
      }
      if !Encodable(k, newIb) {
        return false;
      }
      diff.addedInbounds := diff.addedInbounds + [Item(newIb.tag, In(newIb))];
    }
    assert items[..|items|] == items;
    return true;
  }

  method DiffInbounds(k: Codec, before: Config, after: Config, diff: HotDiff) returns (ok: bool)
    modifies diff`removedInboundTags, diff`addedInbounds
    ensures ok <==> InboundsSwappable(k, before, after)
    ensures ok ==> diff.removedInboundTags == old(diff.removedInboundTags) + OpsOf(k, before, after).removedInbounds
    ensures ok ==> diff.addedInbounds == old(diff.addedInbounds) + OpsOf(k, before, after).addedInbounds
  {
    var oldByTag, newByTag;
    oldByTag, ok := InboundsByTag(before);
    if !ok {
      return;
    }
    newByTag, ok := InboundsByTag(after);
    if !ok {
      return;
    }
    OnlyInbounds(after);
    OpsForInbounds(k, before, after);
    hide Removed, Replaced, Fresh, ByTag, UniqueTags, GoesWell, ComesWell, Inbounds, Named, OpsOf;
    ok := DiffOldInbounds(k, before, newByTag, diff);
    if !ok {
      return;
    }
    ghost var replaced := Replaced(Inbounds(before), newByTag);
    ghost var added := Fresh(Inbounds(after), oldByTag);
    assert old(diff.addedInbounds) + replaced + added == old(diff.addedInbounds) + (replaced + added);
    ok := DiffNewInbounds(k, after, oldByTag, diff);
  }

  lemma OpsForInbounds(k: Codec, before: Config, after: Config)
    ensures var ops, b, a := OpsOf(k, before, after), Inbounds(before), Inbounds(after);
      && ops.removedInbounds == Removed(b, ByTag(a))
      && ops.addedInbounds == Replaced(b, ByTag(a)) + Fresh(a, ByTag(b))
  {
  }

  lemma OnlyInbounds(cfg: Config)
    requires UniqueTags(Inbounds(cfg))
    ensures forall t <- ByTag(Inbounds(cfg)) :: ByTag(Inbounds(cfg))[t].In?
  {
    TablesAgree(Inbounds(cfg));
    hide ByTag, UniqueTags;
  }

  method DecodeOutbounds(k: Codec, raw: string) returns (list: seq<Json>, tags: seq<string>, ok: bool)
    requires Sound(k)
    ensures ok <==> Decodable(k, raw)
    ensures ok ==> list == OutboundList(k, raw) && |tags| == |list|
    ensures ok ==> forall i :: 0 <= i < |list| ==> Item(tags[i], Out(list[i])) == Outbounds(k, raw)[i]
  {
    list, tags, ok := [], [], false;
    if |raw| == 0 {
      assert Blank(raw);
      return;
    }
    match k.whole(raw) {
      case Some(Arr(values)) => list := values;
      case Some(Null) =>
      case _ => return;
    }
    ghost var items := Outbounds(k, raw);
    assert list == OutboundList(k, raw) && |items| == |list|;
    hide HeadTag, Blank, Sound, Outbounds, OutboundList;
    var seen: set<string> := {};
    for i := 0 to |list|
      invariant |tags| == i && UniqueTags(items[..i])
      invariant forall j :: 0 <= j < i ==> HeadTag(list[j]) == Some(tags[j]) && items[j] == Item(tags[j], Out(list[j]))
      invariant forall j :: 1 <= j < i ==> tags[j] != ""
      invariant forall t :: t in seen <==> t != "" && t in tags
    {
      var item := list[i];
      assert item in list && items[i] == OutboundItem(item);
      if HeadTag(item).None? {
        return;
      }
      var tag := HeadTag(item).value;
      assert items[..i + 1] == items[..i] + [items[i]];
      if tag == "" {
        if i != 0 {
          return;
        }
        tags := tags + [""];
        continue;
      }
      if tag in seen {
        TagTwice(items, tags, i);
        return;
      }
      hide UniqueTags;
      NewTag(items, tags, i);
      seen := seen + {tag};
      tags := tags + [tag];
    }
    assert items[..|items|] == items;
    assert forall v <- list :: HeadTag(v).Some?;
    assert forall i :: 1 <= i < |items| ==> items[i].tag == tags[i];
    ok := true;
  }

  lemma TagTwice(items: seq<Item>, tags: seq<string>, i: nat)
    requires |tags| == i < |items| && items[i].tag in tags && forall j :: 0 <= j < i ==> items[j].tag == tags[j]
    ensures !UniqueTags(items)
  {
    var j :| 0 <= j < i && tags[j] == items[i].tag;
    assert items[j].tag == items[i].tag;
  }

  lemma NewTag(items: seq<Item>, tags: seq<string>, i: nat)
    requires |tags| == i < |items| && items[i].tag !in tags && forall j :: 0 <= j < i ==> items[j].tag == tags[j]
    requires UniqueTags(items[..i])
    ensures UniqueTags(items[..i] + [items[i]])
  {
  }

  method IndexByTag(tags: seq<string>, list: seq<Json>, ghost items: seq<Item>) returns (byTag: map<string, Body>)
    requires |tags| == |list| == |items|
    requires forall i :: 0 <= i < |list| ==> Item(tags[i], Out(list[i])) == items[i]
    ensures byTag == ByTag(items)
  {
    byTag := map[];
    for i := 0 to |tags|
      invariant byTag == ByTag(items[..i])
    {
      assert items[..i + 1][..i] == items[..i];
      byTag := byTag[tags[i] := Out(list[i])];
    }
    assert items[..|items|] == items;
  }

  /** The default outbound at index 0 is skipped: it is the same on both sides. */
  method WalkOldOutbounds(tags: seq<string>, list: seq<Json>, newByTag: map<string, Body>, diff: HotDiff, ghost items: seq<Item>)
    requires |tags| == |list| == |items| > 0
    requires forall i :: 0 <= i < |list| ==> Item(tags[i], Out(list[i])) == items[i]
    requires Kept(items[0], newByTag)
    modifies diff`removedOutboundTags, diff`addedOutbounds
    ensures diff.removedOutboundTags == old(diff.removedOutboundTags) + Removed(items, newByTag)
    ensures diff.addedOutbounds == old(diff.addedOutbounds) + Replaced(items, newByTag)
  {
    for i := 0 to |tags|
      invariant diff.removedOutboundTags == old(diff.removedOutboundTags) + Removed(items[..i], newByTag)
      invariant diff.addedOutbounds == old(diff.addedOutbounds) + Replaced(items[..i], newByTag)
    {
      assert items[..i + 1][..i] == items[..i];
      if i == 0 {
        continue;
      }
      var present := tags[i] in newByTag;
      if present && Out(list[i]) == newByTag[tags[i]] {
        continue;
      }
      diff.removedOutboundTags := diff.removedOutboundTags + [tags[i]];
      if present {
        diff.addedOutbounds := diff.addedOutbounds + [Item(tags[i], newByTag[tags[i]])];
      }
    }
    assert items[..|items|] == items;
  }

  method WalkNewOutbounds(tags: seq<string>, list: seq<Json>, oldByTag: map<string, Body>, diff: HotDiff, ghost items: seq<Item>)
    requires |tags| == |list| == |items| > 0
    requires forall i :: 0 <= i < |list| ==> Item(tags[i], Out(list[i])) == items[i]
    requires items[0].tag in oldByTag
    modifies diff`addedOutbounds
    ensures diff.addedOutbounds == old(diff.addedOutbounds) + Fresh(items, oldByTag)
  {
    for i := 0 to |tags|
      invariant diff.addedOutbounds == old(diff.addedOutbounds) + Fresh(items[..i], oldByTag)
    {
      assert items[..i + 1][..i] == items[..i];
      if i == 0 {
        continue;
      }
      if tags[i] in oldByTag {
        continue;
      }
      diff.addedOutbounds := diff.addedOutbounds + [Item(tags[i], Out(list[i]))];
    }
    assert items[..|items|] == items;
  }

  method DiffOutbounds(k: Codec, before: Config, after: Config, diff: HotDiff) returns (ok: bool)
    requires Sound(k)
    modifies diff`removedOutboundTags, diff`addedOutbounds
    ensures ok <==> OutboundsSwappable(k, before, after)
    ensures ok ==> diff.removedOutboundTags == old(diff.removedOutboundTags) + OpsOf(k, before, after).removedOutbounds
    ensures ok ==> diff.addedOutbounds == old(diff.addedOutbounds) + OpsOf(k, before, after).addedOutbounds
  {
    if before.outbounds == after.outbounds {
      return true;
    }
    var oldList, oldTags, newList, newTags;
    oldList, oldTags, ok := DecodeOutbounds(k, before.outbounds);
    if !ok {
      return;
    }
    newList, newTags, ok := DecodeOutbounds(k, after.outbounds);
    if !ok {
      return;
    }
    if |oldList| == 0 || |newList| == 0 {
      return false;
    }
    if oldList[0] != newList[0] {
      return false;
    }
    DiffDecodedOutbounds(k, before, after, oldList, oldTags, newList, newTags, diff);
    return true;
  }

  method DiffDecodedOutbounds(k: Codec, before: Config, after: Config, oldList: seq<Json>, oldTags: seq<string>,
                              newList: seq<Json>, newTags: seq<string>, diff: HotDiff)
    requires OutboundsSwappable(k, before, after) && before.outbounds != after.outbounds
    requires |oldTags| == |oldList| == |Outbounds(k, before.outbounds)|
    requires |newTags| == |newList| == |Outbounds(k, after.outbounds)|
    requires forall i :: 0 <= i < |oldList| ==> Item(oldTags[i], Out(oldList[i])) == Outbounds(k, before.outbounds)[i]
    requires forall i :: 0 <= i < |newList| ==> Item(newTags[i], Out(newList[i])) == Outbounds(k, after.outbounds)[i]
    modifies diff`removedOutboundTags, diff`addedOutbounds
    ensures diff.removedOutboundTags == old(diff.removedOutboundTags) + OpsOf(k, before, after).removedOutbounds
    ensures diff.addedOutbounds == old(diff.addedOutbounds) + OpsOf(k, before, after).addedOutbounds
  {
    hide Removed, Replaced, Fresh, ByTag, OutboundList, Outbounds, Inbounds, OutboundsSwappable, Kept, Meaning;
    ghost var b, a := Outbounds(k, before.outbounds), Outbounds(k, after.outbounds);
    DefaultKept(k, before, after);
    var oldByTag := IndexByTag(oldTags, oldList, b);
    var newByTag := IndexByTag(newTags, newList, a);
    WalkOldOutbounds(oldTags, oldList, newByTag, diff, b);
    WalkNewOutbounds(newTags, newList, oldByTag, diff, a);
  }

  lemma DefaultKept(k: Codec, before: Config, after: Config)
    requires OutboundsSwappable(k, before, after) && before.outbounds != after.outbounds
    ensures var b, a := Outbounds(k, before.outbounds), Outbounds(k, after.outbounds);
      b != [] && a != [] && Kept(b[0], ByTag(a)) && a[0].tag in ByTag(b)
  {
    DefaultStays(k, before, after);
    ByTagHas(Outbounds(k, after.outbounds), 0);
    ByTagHas(Outbounds(k, before.outbounds), 0);
  }

  /** The routing section without what can be reloaded. */
  function RoutingWithoutReloadable(k: Codec, raw: string): Option<Json> {
    match k.first(raw)
    case Some(Obj(fields)) => Some(Obj(fields - {"rules", "balancers"}))
    case Some(Null) => Some(Null)
    case _ => None
  }

  method DiffRouting(k: Codec, before: Config, after: Config, diff: HotDiff) returns (ok: bool)
    requires Sound(k)
    modifies diff`routingConfig
    ensures ok <==> RoutingSwappable(k, before, after)
    ensures ok ==> diff.routingConfig == if OpsOf(k, before, after).routing.Some? then OpsOf(k, before, after).routing else old(diff.routingConfig)
  {
    EqualMeansSame(k, before.routing, after.routing);
    if RawEqualNormalized(k, before.routing, after.routing) {
      return true;
    }
    if |before.routing| == 0 || |after.routing| == 0 {
      return false;
    }
    var oldRest := RoutingWithoutReloadable(k, before.routing);
    if oldRest.None? {
      return false;
    }
    var newRest := RoutingWithoutReloadable(k, after.routing);
    if newRest.None? {
      return false;
    }
    if oldRest != newRest {
      return false;
    }
    diff.routingConfig := Some(after.routing);
    return true;
  }

  method FixedEqual(k: Codec, before: Config, after: Config) returns (same: bool)
    ensures same <==> FixedSame(k, before, after)
  {
    hide Meaning, RawEqualNormalized;
    var olds, news := Fixed(before), Fixed(after);
    for i := 0 to |olds|
      invariant forall j :: 0 <= j < i ==> Meaning(k, olds[j]) == Meaning(k, news[j])
    {
      EqualMeansSame(k, olds[i], news[i]);
      if !RawEqualNormalized(k, olds[i], news[i]) {
        assert FixedState(k, before)[i] != FixedState(k, after)[i];
        return false;
      }
    }
    assert FixedState(k, before) == FixedState(k, after);
    return true;
  }

  /** A diff is offered exactly for the acceptable changes, and holds exactly the operations that reach the new core. */
  method ComputeHotDiff(k: Codec, before: Option<Config>, after: Option<Config>) returns (diff: HotDiff?)
    requires Sound(k)
    ensures diff != null <==> before.Some? && after.Some? && Accepts(k, before.value, after.value)
    ensures diff != null ==> fresh(diff) && diff.Contents() == OpsOf(k, before.value, after.value)
  {
    if before.None? || after.None? {
      return null;
    }
    hide InboundsSwappable, OutboundsSwappable, RoutingSwappable, Sound, Removed, Replaced, Fresh, ByTag, OpsOf, FixedSame;
    var same := FixedEqual(k, before.value, after.value);
    if !same {
      return null;
    }
    var d := new HotDiff();
    var ok := DiffInbounds(k, before.value, after.value, d);
    if !ok {
      return null;
    }
    ok := DiffOutbounds(k, before.value, after.value, d);
    if !ok {
      return null;
    }
    ok := DiffRouting(k, before.value, after.value, d);
    if !ok {
      return null;
    }
    return d;
  }

  /** An empty diff means the running core already is what the new configuration describes. */
  lemma EmptyMeansSame(k: Codec, before: Config, after: Config)
    requires Accepts(k, before, after) && OpsOf(k, before, after) == Ops([], [], [], [], None)
    ensures Load(k, before) == Load(k, after)
  {
    ApplyReaches(k, before, after);
    hide Load, OpsOf, Accepts;
  }

  /** The routing may change in its rules and balancers, and in no other member. */
  lemma RoutingExactly(k: Codec, before: Config, after: Config)
    requires Meaning(k, before.routing).Value? && Meaning(k, before.routing).v.Obj?
    requires Meaning(k, after.routing).Value? && Meaning(k, after.routing).v.Obj?
    ensures RoutingSwappable(k, before, after) <==>
      var b, a := Meaning(k, before.routing).v.fields, Meaning(k, after.routing).v.fields;
      forall key :: key != "rules" && key != "balancers" ==> (key in b <==> key in a) && (key in b ==> b[key] == a[key])
  {
    var b, a := Meaning(k, before.routing).v.fields, Meaning(k, after.routing).v.fields;
    hide Meaning;
    var restB, restA := b - {"rules", "balancers"}, a - {"rules", "balancers"};
    if RoutingSwappable(k, before, after) {
      assert restB == restA;
      forall key | key != "rules" && key != "balancers"
        ensures (key in b <==> key in a) && (key in b ==> b[key] == a[key])
      {
        assert (key in restB <==> key in b) && (key in restA <==> key in a);
        assert key in restB ==> restB[key] == b[key] && restA[key] == a[key];
      }
    }
    if forall key :: key != "rules" && key != "balancers" ==> (key in b <==> key in a) && (key in b ==> b[key] == a[key]) {
      assert restB == restA;
    }
  }

  /** What an operation adds can be built at run time: every raw part is empty or decodes, and it does not use Reality. */
  lemma AddedCanBeBuilt(k: Codec, before: Config, after: Config, ib: InboundConfig)
    requires Accepts(k, before, after) && Item(ib.tag, In(ib)) in OpsOf(k, before, after).addedInbounds
    ensures forall raw <- [ib.listen, ib.settings, ib.streamSettings, ib.sniffing] :: raw == "" || k.whole(raw).Some?
    ensures ib.streamSettings != "" && k.whole(ib.streamSettings).value.Obj? ==>
      var fields := k.whole(ib.streamSettings).value.fields;
      "security" in fields && fields["security"].Str? ==> !SameLetters(fields["security"].s, "reality")
  {
    AddedIsRebuildable(k, before, after, Item(ib.tag, In(ib)));
    if ib.streamSettings != "" && k.whole(ib.streamSettings).value.Obj? {
      var fields := k.whole(ib.streamSettings).value.fields;
      if "security" in fields && fields["security"].Str? {
        LowerExactly(fields["security"].s, "reality");
      }
    }
    hide OpsOf, Accepts, Lower, SameLetters;
  }
}
