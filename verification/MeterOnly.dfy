/** Hot diffs that only exchange the metering pool, and why they leave every routing decision alone. */
module MeterOnly {
  import opened Collections
  import opened Json
  import opened MeterTags
  import opened Metering
  import opened Router
  import opened TagTables
  import opened HotReload

  // ----- recognising such a diff

  predicate Tagged(rule: Json, isTag: string -> bool) {
    var tag := StringField(rule, "outboundTag");
    tag != "" && isTag(tag)
  }

  function WithoutTagged(rules: seq<Json>, isTag: string -> bool): seq<Json> {
    if rules == [] then []
    else
      var r := rules[|rules| - 1];
      WithoutTagged(rules[..|rules| - 1], isTag) + if Tagged(r, isTag) then [] else [r]
  }

  function Untouched(k: Codec, raw: string, isTag: string -> bool): Option<Json> {
    match k.whole(raw)
    case Some(Obj(fields)) =>
      if "rules" in fields && fields["rules"].Arr?
      then Some(Obj(fields["rules" := Arr(WithoutTagged(fields["rules"].items, isTag))]))
      else Some(Obj(fields))
    case _ => None
  }

  method RoutingWithoutTags(k: Codec, raw: string, isTag: string -> bool) returns (out: Option<Json>)
    ensures out == Untouched(k, raw, isTag)
  {
    var v := k.whole(raw);
    if v.None? || !v.value.Obj? {
      return None;
    }
    var routing := v.value.fields;
    if "rules" in routing && routing["rules"].Arr? {
      var rules := routing["rules"].items;
      var kept: seq<Json> := [];
      for i := 0 to |rules|
        invariant kept == WithoutTagged(rules[..i], isTag)
      {
        assert rules[..i + 1][..i] == rules[..i];
        var r := rules[i];
        var tag := StringField(r, "outboundTag");
        if tag != "" && isTag(tag) {
          continue;
        }
        kept := kept + [r];
      }
      assert rules[..|rules|] == rules;
      routing := routing["rules" := Arr(kept)];
    }
    return Some(Obj(routing));
  }

  predicate Touchable(x: Item, isTag: string -> bool) {
    x.body.Out? && HeadTag(x.body.json).Some? && isTag(HeadTag(x.body.json).value)
  }

  predicate TouchesOnly(k: Codec, before: Config, after: Config, ops: Ops, isTag: string -> bool) {
    && ops != Ops([], [], [], [], None)
    && ops.removedInbounds == [] && ops.addedInbounds == []
    && (forall t <- ops.removedOutbounds :: isTag(t))
    && (forall x <- ops.addedOutbounds :: Touchable(x, isTag))
    && (ops.routing.Some? ==>
          && Untouched(k, before.routing, isTag).Some?
          && Untouched(k, before.routing, isTag) == Untouched(k, after.routing, isTag))
  }

  method OnlyTouchesTags(k: Codec, before: Option<Config>, after: Option<Config>, diff: HotDiff?, isTag: string -> bool)
    returns (only: bool)
    ensures only <==>
      && diff != null && before.Some? && after.Some?
      && TouchesOnly(k, before.value, after.value, diff.Contents(), isTag)
  {
    if diff == null || before.None? || after.None? {
      return false;
    }
    if diff.Empty() {
      return false;
    }
    if |diff.removedInboundTags| > 0 || |diff.addedInbounds| > 0 {
      return false;
    }
    for i := 0 to |diff.removedOutboundTags|
      invariant forall j :: 0 <= j < i ==> isTag(diff.removedOutboundTags[j])
    {
      if !isTag(diff.removedOutboundTags[i]) {
        assert diff.removedOutboundTags[i] in diff.removedOutboundTags;
        return false;
      }
    }
    for i := 0 to |diff.addedOutbounds|
      invariant forall j :: 0 <= j < i ==> Touchable(diff.addedOutbounds[j], isTag)
    {
      var x := diff.addedOutbounds[i];
      if !x.body.Out? || HeadTag(x.body.json).None? || !isTag(HeadTag(x.body.json).value) {
        assert x in diff.addedOutbounds && !Touchable(x, isTag);
        return false;
      }
    }
    if diff.routingConfig.None? {
      return true;
    }
    hide Untouched;
    var oldR := RoutingWithoutTags(k, before.value.routing, isTag);
    var newR := RoutingWithoutTags(k, after.value.routing, isTag);
    return oldR.Some? && newR.Some? && oldR == newR;
  }

  // ----- what it leaves alone

  /** Everything but the recognised outbounds and the routing is the same in both cores. */
  lemma OthersSame(k: Codec, before: Config, after: Config, isTag: string -> bool)
    requires Accepts(k, before, after) && TouchesOnly(k, before, after, OpsOf(k, before, after), isTag)
    ensures var b, a := Load(k, before), Load(k, after);
      && a.inbounds == b.inbounds && a.first == b.first && a.fixed == b.fixed && a.routing.rest == b.routing.rest
      && (forall t :: !isTag(t) ==> (t in b.outbounds <==> t in a.outbounds))
      && (forall t :: !isTag(t) && t in b.outbounds ==> a.outbounds[t] == b.outbounds[t])
  {
    hide TouchesOnly, Untouched, WithoutTagged;
    InboundsSame(k, before, after, isTag);
    OutboundsSame(k, before, after, isTag);
    RoutingReaches(k, before, after);
    hide InboundsSwappable, RoutingSwappable, RoutingState, OpsOf, ByTag, Outbounds, Inbounds;
    if before.outbounds != after.outbounds {
      DefaultStays(k, before, after);
    }
  }

  lemma InboundsSame(k: Codec, before: Config, after: Config, isTag: string -> bool)
    requires InboundsSwappable(k, before, after) && TouchesOnly(k, before, after, OpsOf(k, before, after), isTag)
    ensures ByTag(Inbounds(before)) == ByTag(Inbounds(after))
  {
    SwapReaches(Inbounds(before), Inbounds(after));
    hide Removed, Replaced, Fresh, ByTag, InboundsSwappable, Untouched, Outbounds;
  }

  lemma OutboundsSame(k: Codec, before: Config, after: Config, isTag: string -> bool)
    requires OutboundsSwappable(k, before, after) && TouchesOnly(k, before, after, OpsOf(k, before, after), isTag)
    ensures var b, a := ByTag(Outbounds(k, before.outbounds)), ByTag(Outbounds(k, after.outbounds));
      && (forall t :: !isTag(t) ==> (t in b <==> t in a))
      && (forall t :: !isTag(t) && t in b ==> a[t] == b[t])
  {
    if before.outbounds != after.outbounds {
      var b, a := Outbounds(k, before.outbounds), Outbounds(k, after.outbounds);
      RemovedTags(b, ByTag(a));
      ChangedTags(b, ByTag(a));
      FreshItems(a, ByTag(b));
      TablesAgree(a);
      hide Removed, Replaced, Fresh, ByTag, UniqueTags, Untouched, Changed;
      forall t | t in ByTag(a) && t !in ByTag(b)
        ensures isTag(t)
      {
        var x := Item(t, ByTag(a)[t]);
        assert x in a && x in Fresh(a, ByTag(b));
        assert Touchable(x, isTag);
      }
    }
  }

  // ----- routing decisions

  function RulesOf(k: Codec, raw: string): seq<Json> {
    match Member(Meaning(k, raw), "rules")
    case Some(Arr(items)) => items
    case _ => []
  }

  function RoutingStrategy(k: Codec, raw: string): Strategy {
    match Member(Meaning(k, raw), "domainStrategy")
    case Some(v) => StrategyOf(v)
    case None => AsIs
  }

  /** How the core reads a rule is its own; the outbound tag is the member of that name. */
  ghost predicate Reads(read: Json -> Rule) {
    forall v :: read(v).outboundTag == StringField(v, "outboundTag")
  }

  function ReadAll(read: Json -> Rule, rules: seq<Json>): (r: seq<Rule>)
    ensures |r| == |rules| && forall i :: 0 <= i < |r| ==> r[i] == read(rules[i])
  {
    seq(|rules|, i requires 0 <= i < |rules| => read(rules[i]))
  }

  /** The shape generation gives: rules without metering tags, then the metering rules. */
  ghost predicate Generated(k: Codec, read: Json -> Rule, raw: string, base: seq<Rule>, meter: seq<Rule>, pool: seq<MeterEntry>) {
    && ReadAll(read, RulesOf(k, raw)) == base + meter
    && (forall r <- base :: !IsMeterTag(r.outboundTag))
    && MeterRules(meter, pool, RoutingStrategy(k, raw) != AsIs)
  }

  lemma EntryTagIsMeter(e: MeterEntry)
    ensures IsMeterTag(EntryTag(e)) && EntryTag(e) != ""
  {
    var tag := EntryTag(e);
    assert tag == PREFIX + (Itoa(e.inboundId) + "-" + e.domain);
    assert tag[..|PREFIX|] == PREFIX;
  }

  lemma {:induction false} WithoutTaggedPrefix(rules: seq<Json>, n: nat, isTag: string -> bool)
    requires n <= |rules|
    requires forall i :: 0 <= i < n ==> !Tagged(rules[i], isTag)
    requires forall i :: n <= i < |rules| ==> Tagged(rules[i], isTag)
    ensures WithoutTagged(rules, isTag) == rules[..n]
  {
    if rules != [] {
      var front := rules[..|rules| - 1];
      if n < |rules| {
        WithoutTaggedPrefix(front, n, isTag);
        assert front[..n] == rules[..n];
      } else {
        WithoutTaggedPrefix(front, n - 1, isTag);
        assert front[..n - 1] == front && rules[..n] == front + [rules[n - 1]];
      }
    }
  }

  /** Dropping the metering rules of a generated configuration leaves its other rules. */
  lemma BaseIsRest(k: Codec, read: Json -> Rule, raw: string, base: seq<Rule>, meter: seq<Rule>, pool: seq<MeterEntry>)
    requires Reads(read) && Generated(k, read, raw, base, meter, pool)
    ensures ReadAll(read, WithoutTagged(RulesOf(k, raw), IsMeterTag)) == base
  {
    var rules := RulesOf(k, raw);
    var all := base + meter;
    forall i | 0 <= i < |rules|
      ensures Tagged(rules[i], IsMeterTag) <==> i >= |base|
    {
      assert read(rules[i]) == all[i] && all[i].outboundTag == StringField(rules[i], "outboundTag");
      if i >= |base| {
        assert all[i] == meter[i - |base|] && meter[i - |base|] in meter;
        var e :| e in pool && all[i].outboundTag == EntryTag(e);
        EntryTagIsMeter(e);
      } else {
        assert all[i] == base[i] && base[i] in base;
      }
    }
    hide RulesOf, Tagged, IsMeterTag, Generated;
    WithoutTaggedPrefix(rules, |base|, IsMeterTag);
    assert ReadAll(read, rules[..|base|]) == all[..|base|] == base;
  }

  /** A recognised routing change keeps the domain strategy and all other rules in order. */
  lemma RestSame(k: Codec, before: Config, after: Config, isTag: string -> bool)
    requires Sound(k) && RoutingSwappable(k, before, after)
    requires TouchesOnly(k, before, after, OpsOf(k, before, after), isTag)
    ensures RoutingStrategy(k, before.routing) == RoutingStrategy(k, after.routing)
    ensures WithoutTagged(RulesOf(k, before.routing), isTag) == WithoutTagged(RulesOf(k, after.routing), isTag)
  {
    if Meaning(k, before.routing) != Meaning(k, after.routing) {
      UntouchedParts(k, before.routing, isTag);
      UntouchedParts(k, after.routing, isTag);
    }
  }

  /** What the comparison sees of a routing section holds its strategy and its other rules. */
  function RulesIn(v: Json): Option<seq<Json>> {
    if v.Obj? && "rules" in v.fields && v.fields["rules"].Arr? then Some(v.fields["rules"].items) else None
  }

  lemma UntouchedParts(k: Codec, raw: string, isTag: string -> bool)
    requires Sound(k) && Untouched(k, raw, isTag).Some?
    ensures var v := Untouched(k, raw, isTag).value;
      && v.Obj?
      && RoutingStrategy(k, raw) == (if "domainStrategy" in v.fields then StrategyOf(v.fields["domainStrategy"]) else AsIs)
      && WithoutTagged(RulesOf(k, raw), isTag) == (if RulesIn(v).Some? then RulesIn(v).value else [])
  {
    assert k.first(raw) == k.whole(raw) && !Blank(raw);
  }

  /**
   A diff that only exchanges metering tags: a connection sent to any other outbound by one configuration is sent
   there by the other, for every strategy, DNS answer and connection.
   */
  lemma ChoicesKept(k: Codec, w: World, read: Json -> Rule, before: Config, after: Config, base: seq<Rule>, meter: seq<Rule>,
                    pool: seq<MeterEntry>, base': seq<Rule>, meter': seq<Rule>, pool': seq<MeterEntry>, c: Conn)
    requires Sound(k) && Lawful(w) && Reads(read)
    requires Accepts(k, before, after) && TouchesOnly(k, before, after, OpsOf(k, before, after), IsMeterTag)
    requires Generated(k, read, before.routing, base, meter, pool)
    requires Generated(k, read, after.routing, base', meter', pool')
    ensures var p := Pick(w, RoutingStrategy(k, before.routing), ReadAll(read, RulesOf(k, before.routing)), c);
      var q := Pick(w, RoutingStrategy(k, after.routing), ReadAll(read, RulesOf(k, after.routing)), c);
      p == q || ((p.None? || IsMeterTag(p.value)) && (q.None? || IsMeterTag(q.value)))
  {
    RestSame(k, before, after, IsMeterTag);
    BaseIsRest(k, read, before.routing, base, meter, pool);
    BaseIsRest(k, read, after.routing, base', meter', pool');
    hide TouchesOnly, Accepts, RulesOf, WithoutTagged, MeterRules, Pick, Untouched, Reads, RoutingStrategy;
    var s := RoutingStrategy(k, before.routing);
    PickWithMeter(w, s, base, meter, pool, c);
    PickWithMeter(w, s, base', meter', pool', c);
    forall e: MeterEntry
      ensures IsMeterTag(EntryTag(e))
    {
      EntryTagIsMeter(e);
    }
  }

  /** The outbound a running core sends a connection to; no match and a dangling tag both mean the default. */
  function SentTo(core: Core, picked: Option<string>): Body
    requires core.first.Some? && core.first.value in core.outbounds
  {
    if picked.Some? && picked.value in core.outbounds then core.outbounds[picked.value] else core.outbounds[core.first.value]
  }

  function Bare(b: Body): Body {
    if b.Out? then Out(Untagged(b.json)) else b
  }

  /** A core with a default outbound that is not metered, every metering outbound being a copy of it. */
  ghost predicate Metered(core: Core) {
    && core.first.Some? && core.first.value in core.outbounds && !IsMeterTag(core.first.value)
    && forall t <- core.outbounds :: IsMeterTag(t) ==> Bare(core.outbounds[t]) == Bare(core.outbounds[core.first.value])
  }

  lemma SentAlike(x: Core, y: Core, p: Option<string>, q: Option<string>)
    requires Metered(x) && Metered(y) && x.first == y.first
    requires forall t :: !IsMeterTag(t) ==> (t in x.outbounds <==> t in y.outbounds)
    requires forall t :: !IsMeterTag(t) && t in x.outbounds ==> y.outbounds[t] == x.outbounds[t]
    requires p == q || ((p.None? || IsMeterTag(p.value)) && (q.None? || IsMeterTag(q.value)))
    ensures Bare(SentTo(x, p)) == Bare(SentTo(y, q))
  {
    hide IsMeterTag, Bare;
  }

  /**
   So exchanging the metering pool on a running core changes no connection's way out, up to the outbound's tag: not
   for connections that were metered, are metered now, or neither.
   */
  lemma PoolSwapTransparent(k: Codec, w: World, read: Json -> Rule, before: Config, after: Config, base: seq<Rule>,
                            meter: seq<Rule>, pool: seq<MeterEntry>, base': seq<Rule>, meter': seq<Rule>,
                            pool': seq<MeterEntry>, c: Conn)
    requires Sound(k) && Lawful(w) && Reads(read)
    requires Accepts(k, before, after) && TouchesOnly(k, before, after, OpsOf(k, before, after), IsMeterTag)
    requires Generated(k, read, before.routing, base, meter, pool)
    requires Generated(k, read, after.routing, base', meter', pool')
    requires Metered(Load(k, before)) && Metered(Load(k, after))
    ensures var p := Pick(w, RoutingStrategy(k, before.routing), ReadAll(read, RulesOf(k, before.routing)), c);
      var q := Pick(w, RoutingStrategy(k, after.routing), ReadAll(read, RulesOf(k, after.routing)), c);
      Bare(SentTo(Load(k, before), p)) == Bare(SentTo(Load(k, after), q))
  {
    ChoicesKept(k, w, read, before, after, base, meter, pool, base', meter', pool', c);
    OthersSame(k, before, after, IsMeterTag);
    hide *;
    SentAlike(Load(k, before), Load(k, after),
              Pick(w, RoutingStrategy(k, before.routing), ReadAll(read, RulesOf(k, before.routing)), c),
              Pick(w, RoutingStrategy(k, after.routing), ReadAll(read, RulesOf(k, after.routing)), c));
  }
}
