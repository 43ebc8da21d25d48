/** Compiling stored routing rules into the core's ordered rule list. */
module RuleCompiler {
  import opened Collections
  import opened Router

  const BLOCK_TAG := "a-ui-block"

  /** The four stored lists of a group, None where the stored text is corrupt. */
  datatype Group = Group(
    domains: Option<seq<string>>, subscribedDomains: Option<seq<string>>,
    cidrs: Option<seq<string>>, subscribedCidrs: Option<seq<string>>)

  datatype DbRule = DbRule(
    id: int, groupIds: Option<seq<int>>, inboundIds: Option<seq<int>>, action: string, outboundId: int)

  datatype Skip = GroupsCorrupt | NoGroups | NoConditions | InboundsCorrupt | NoLiveInbound | NoOutbound | NoDefault | UnknownAction

  /** The rules generated for one stored rule, and whether they belong to the blocking part. */
  datatype Compiled = Compiled(rules: seq<Rule>, isBlock: bool)

  /** What compilation looks up: groups, tags of enabled inbounds, tags of written nodes, the default outbound's tag. */
  datatype Tables = Tables(groups: map<int, Group>, inbounds: map<int, string>, nodes: map<int, string>, defaultTag: string)

  // ----- ordered merging without duplicates

  function AddOnce(merged: seq<string>, d: string): seq<string> {
    if d == "" || d in merged then merged else merged + [d]
  }

  function MergeInto(merged: seq<string>, list: seq<string>): seq<string> {
    if list == [] then merged else AddOnce(MergeInto(merged, list[..|list| - 1]), list[|list| - 1])
  }

  function Merge(lists: seq<seq<string>>): seq<string> {
    if lists == [] then [] else MergeInto(Merge(lists[..|lists| - 1]), lists[|lists| - 1])
  }

  ghost predicate NoDuplicates(xs: seq<string>) {
    forall i, j :: 0 <= i < j < |xs| ==> xs[i] != xs[j]
  }

  lemma {:induction false} MergeIntoExact(merged: seq<string>, list: seq<string>)
    requires NoDuplicates(merged) && "" !in merged
    ensures var r := MergeInto(merged, list);
      NoDuplicates(r) && "" !in r && merged <= r && forall x :: x in r <==> x in merged || (x != "" && x in list)
  {
    if list != [] {
      var front, last := list[..|list| - 1], list[|list| - 1];
      assert list == front + [last];
      MergeIntoExact(merged, front);
    }
  }

  /** The merged list holds exactly the non-empty strings of its parts, each once. */
  lemma {:induction false} MergeExact(lists: seq<seq<string>>)
    ensures var r := Merge(lists);
      NoDuplicates(r) && "" !in r && forall x :: x in r <==> x != "" && exists l <- lists :: x in l
  {
    if lists != [] {
      var front, last := lists[..|lists| - 1], lists[|lists| - 1];
      assert lists == front + [last];
      MergeExact(front);
      MergeIntoExact(Merge(front), last);
      forall x
        ensures x in Merge(lists) <==> x != "" && exists l <- lists :: x in l
      {
        if l :| l in front && x in l {
          assert l in lists;
        }
        assert last in lists;
      }
    }
  }

  method MergeDomains(lists: seq<seq<string>>) returns (merged: seq<string>)
    ensures merged == Merge(lists)
    ensures NoDuplicates(merged) && "" !in merged && forall x :: x in merged <==> x != "" && exists l <- lists :: x in l
  {
    merged := [];
    var seen: set<string> := {};
    for i := 0 to |lists|
      invariant merged == Merge(lists[..i]) && seen == set x | x in merged
    {
      var list := lists[i];
      assert lists[..i + 1][..i] == lists[..i];
      for j := 0 to |list|
        invariant merged == MergeInto(Merge(lists[..i]), list[..j]) && seen == set x | x in merged
      {
        var d := list[j];
        assert list[..j + 1][..j] == list[..j];
        if d == "" || d in seen {
          continue;
        }
        seen := seen + {d};
        merged := merged + [d];
      }
      assert list[..|list|] == list;
    }
    assert lists[..|lists|] == lists;
    MergeExact(lists);
  }

  // ----- the conditions of one rule

  /** The usable lists of a group: None when it is gone, corrupt in any part, or empty. */
  function Conditions(t: Tables, gid: int): Option<(seq<string>, seq<string>)> {
    if gid !in t.groups then None
    else
      var g := t.groups[gid];
      if g.domains.None? || g.subscribedDomains.None? || g.cidrs.None? || g.subscribedCidrs.None? then None
      else
        var domains := Merge([g.domains.value, g.subscribedDomains.value]);
        var cidrs := Merge([g.cidrs.value, g.subscribedCidrs.value]);
        if domains == [] && cidrs == [] then None else Some((domains, cidrs))
  }

  function DomainLists(t: Tables, groupIds: seq<int>): seq<seq<string>> {
    if groupIds == [] then []
    else
      var front, last := DomainLists(t, groupIds[..|groupIds| - 1]), Conditions(t, groupIds[|groupIds| - 1]);
      if last.Some? && last.value.0 != [] then front + [last.value.0] else front
  }

  function CidrLists(t: Tables, groupIds: seq<int>): seq<seq<string>> {
    if groupIds == [] then []
    else
      var front, last := CidrLists(t, groupIds[..|groupIds| - 1]), Conditions(t, groupIds[|groupIds| - 1]);
      if last.Some? && last.value.1 != [] then front + [last.value.1] else front
  }

  function LiveTags(t: Tables, inboundIds: seq<int>): (tags: seq<string>)
    ensures forall tag :: tag in tags <==> exists id <- inboundIds :: id in t.inbounds && t.inbounds[id] == tag
  {
    if inboundIds == [] then []
    else
      var front, last := inboundIds[..|inboundIds| - 1], inboundIds[|inboundIds| - 1];
      assert inboundIds == front + [last];
      if last in t.inbounds then LiveTags(t, front) + [t.inbounds[last]] else LiveTags(t, front)
  }

  /** The outbound tag an action leads to, if it can be generated. */
  function ActionTag(t: Tables, rule: DbRule): Result<string, Skip> {
    if rule.action == "block" then Ok(BLOCK_TAG)
    else if rule.action == "proxy" then
      if rule.outboundId in t.nodes then Ok(t.nodes[rule.outboundId]) else Err(NoOutbound)
    else if rule.action == "direct" then
      if t.defaultTag == "" then Err(NoDefault) else Ok(t.defaultTag)
    else Err(UnknownAction)
  }

  function Emitted(inboundTags: seq<string>, domains: seq<string>, cidrs: seq<string>, tag: string): seq<Rule> {
    (if domains != [] then [Field(inboundTags, domains, [], tag)] else []) +
    (if cidrs != [] then [Field(inboundTags, [], cidrs, tag)] else [])
  }

  function CompileRule(t: Tables, rule: DbRule): Result<Compiled, Skip> {
    if rule.groupIds.None? then Err(GroupsCorrupt)
    else if rule.groupIds.value == [] then Err(NoGroups)
    else
      var domains, cidrs := Merge(DomainLists(t, rule.groupIds.value)), Merge(CidrLists(t, rule.groupIds.value));
      if domains == [] && cidrs == [] then Err(NoConditions)
      else if rule.inboundIds.None? then Err(InboundsCorrupt)
      else
        var tags := LiveTags(t, rule.inboundIds.value);
        if rule.inboundIds.value != [] && tags == [] then Err(NoLiveInbound)
        else
          match ActionTag(t, rule)
          case Err(e) => Err(e)
          case Ok(tag) => Ok(Compiled(Emitted(tags, domains, cidrs, tag), rule.action == "block"))
  }

  method CollectLists(t: Tables, groupIds: seq<int>) returns (domainLists: seq<seq<string>>, cidrLists: seq<seq<string>>)
    ensures domainLists == DomainLists(t, groupIds) && cidrLists == CidrLists(t, groupIds)
  {
    domainLists, cidrLists := [], [];
    for i := 0 to |groupIds|
      invariant domainLists == DomainLists(t, groupIds[..i]) && cidrLists == CidrLists(t, groupIds[..i])
    {
      assert groupIds[..i + 1][..i] == groupIds[..i];
      var gid := groupIds[i];
      if gid !in t.groups {
        continue;
      }
      var g := t.groups[gid];
      if g.domains.None? || g.subscribedDomains.None? || g.cidrs.None? || g.subscribedCidrs.None? {
        continue;
      }
      var oneDomains := MergeDomains([g.domains.value, g.subscribedDomains.value]);
      var oneCidrs := MergeDomains([g.cidrs.value, g.subscribedCidrs.value]);
      if |oneDomains| == 0 && |oneCidrs| == 0 {
        continue;
      }
      if |oneDomains| > 0 {
        domainLists := domainLists + [oneDomains];
      }
      if |oneCidrs| > 0 {
        cidrLists := cidrLists + [oneCidrs];
      }
    }
    assert groupIds[..|groupIds|] == groupIds;
  }

  method CollectTags(t: Tables, inboundIds: seq<int>) returns (tags: seq<string>)
    ensures tags == LiveTags(t, inboundIds)
  {
    tags := [];
    for i := 0 to |inboundIds|
      invariant tags == LiveTags(t, inboundIds[..i])
    {
      assert inboundIds[..i + 1][..i] == inboundIds[..i];
      if inboundIds[i] !in t.inbounds {
        continue;
      }
      tags := tags + [t.inbounds[inboundIds[i]]];
    }
    assert inboundIds[..|inboundIds|] == inboundIds;
  }

  method BuildRule(t: Tables, rule: DbRule) returns (r: Result<Compiled, Skip>)
    ensures r == CompileRule(t, rule)
  {
    hide Merge, DomainLists, CidrLists, LiveTags;
    if rule.groupIds.None? {
      return Err(GroupsCorrupt);
    }
    if |rule.groupIds.value| == 0 {
      return Err(NoGroups);
    }
    var domainLists, cidrLists := CollectLists(t, rule.groupIds.value);
    var domains := MergeDomains(domainLists);
    var cidrs := MergeDomains(cidrLists);
    if |domains| == 0 && |cidrs| == 0 {
      return Err(NoConditions);
    }
    if rule.inboundIds.None? {
      return Err(InboundsCorrupt);
    }
    var inboundTags: seq<string> := [];
    NoIdsNoTags(t);
    if |rule.inboundIds.value| > 0 {
      inboundTags := CollectTags(t, rule.inboundIds.value);
      if |inboundTags| == 0 {
        return Err(NoLiveInbound);
      }
    }
    var outboundTag, isBlock := "", false;
    if rule.action == "block" {
      outboundTag, isBlock := BLOCK_TAG, true;
    } else if rule.action == "proxy" {
      if rule.outboundId !in t.nodes {
        return Err(NoOutbound);
      }
      outboundTag := t.nodes[rule.outboundId];
    } else if rule.action == "direct" {
      if t.defaultTag == "" {
        return Err(NoDefault);
      }
      outboundTag := t.defaultTag;
    } else {
      return Err(UnknownAction);
    }
    var generated: seq<Rule> := [];
    if |domains| > 0 {
      generated := generated + [Field(inboundTags, domains, [], outboundTag)];
    }
    if |cidrs| > 0 {
      generated := generated + [Field(inboundTags, [], cidrs, outboundTag)];
    }
    assert generated == Emitted(inboundTags, domains, cidrs, outboundTag);
    r := Ok(Compiled(generated, isBlock));
  }

  lemma NoIdsNoTags(t: Tables)
    ensures LiveTags(t, []) == []
  {
  }

  /** The generated rules of one part, blocking or not, in the order of the stored rules. */
  function CompileAll(t: Tables, rules: seq<DbRule>, blocking: bool): seq<Rule> {
    if rules == [] then []
    else
      CompileAll(t, rules[..|rules| - 1], blocking) +
      match CompileRule(t, rules[|rules| - 1])
      case Err(_) => []
      case Ok(compiled) => if compiled.isBlock == blocking then compiled.rules else []
  }

  method BuildRules(t: Tables, rules: seq<DbRule>) returns (blockRules: seq<Rule>, routeRules: seq<Rule>)
    ensures blockRules == CompileAll(t, rules, true) && routeRules == CompileAll(t, rules, false)
  {
    blockRules, routeRules := [], [];
    for i := 0 to |rules|
      invariant blockRules == CompileAll(t, rules[..i], true) && routeRules == CompileAll(t, rules[..i], false)
    {
      hide CompileRule;
      assert rules[..i + 1][..i] == rules[..i];
      var generated := BuildRule(t, rules[i]);
      if generated.Err? {
        continue;
      }
      if generated.value.isBlock {
        blockRules := blockRules + generated.value.rules;
      } else {
        routeRules := routeRules + generated.value.rules;
      }
    }
    assert rules[..|rules|] == rules;
  }

  // ----- what the stored rules mean

  /** No inbound ids means everyone; otherwise only the enabled ones among them. */
  ghost predicate CoversInbound(t: Tables, rule: DbRule, c: Conn)
    requires rule.inboundIds.Some?
  {
    rule.inboundIds.value == [] ||
    exists id <- rule.inboundIds.value :: id in t.inbounds && t.inbounds[id] == c.inboundTag
  }

  /** A group contributes if it is there and all its four lists are readable. */
  ghost predicate Readable(t: Tables, gid: int) {
    gid in t.groups &&
    var g := t.groups[gid]; g.domains.Some? && g.subscribedDomains.Some? && g.cidrs.Some? && g.subscribedCidrs.Some?
  }

  /** A domain entered by hand or subscribed to in some group that the rule names. */
  ghost predicate NamesDomain(t: Tables, groupIds: seq<int>, d: string) {
    d != "" && exists gid <- groupIds ::
      Readable(t, gid) && (d in t.groups[gid].domains.value || d in t.groups[gid].subscribedDomains.value)
  }

  ghost predicate NamesCidr(t: Tables, groupIds: seq<int>, x: string) {
    x != "" && exists gid <- groupIds ::
      Readable(t, gid) && (x in t.groups[gid].cidrs.value || x in t.groups[gid].subscribedCidrs.value)
  }

  /** One of the rule's domains or one of its addresses matches, never the conjunction of the two. */
  ghost predicate Says(w: World, t: Tables, rule: DbRule, c: Conn, resolved: bool)
    requires rule.groupIds.Some? && rule.inboundIds.Some?
  {
    && CoversInbound(t, rule, c)
    && ((c.target.DomainTarget? && exists d :: NamesDomain(t, rule.groupIds.value, d) && w.domainMatch(d, c.target.name)) ||
        (exists x :: NamesCidr(t, rule.groupIds.value, x) && w.ipMatch(x, Visible(w, c, resolved))))
  }

  /** Where an action leads. */
  ghost predicate LeadsTo(t: Tables, rule: DbRule, tag: string) {
    || (rule.action == "block" && tag == BLOCK_TAG)
    || (rule.action == "proxy" && rule.outboundId in t.nodes && tag == t.nodes[rule.outboundId])
    || (rule.action == "direct" && tag == t.defaultTag && tag != "")
  }

  /** A stored rule is generated if it names a condition, an enabled inbound unless it is for everyone, and a way out. */
  ghost predicate Survives(t: Tables, rule: DbRule) {
    && rule.groupIds.Some? && rule.inboundIds.Some?
    && ((exists d :: NamesDomain(t, rule.groupIds.value, d)) || (exists x :: NamesCidr(t, rule.groupIds.value, x)))
    && (rule.inboundIds.value == [] || exists id <- rule.inboundIds.value :: id in t.inbounds)
    && (exists tag :: LeadsTo(t, rule, tag))
  }

  lemma {:induction false} CollectedLists(t: Tables, groupIds: seq<int>)
    ensures forall d :: (d != "" && exists l <- DomainLists(t, groupIds) :: d in l) <==> NamesDomain(t, groupIds, d)
    ensures forall x :: (x != "" && exists l <- CidrLists(t, groupIds) :: x in l) <==> NamesCidr(t, groupIds, x)
  {
    if groupIds != [] {
      var front, gid := groupIds[..|groupIds| - 1], groupIds[|groupIds| - 1];
      assert groupIds == front + [gid];
      CollectedLists(t, front);
      GroupLists(t, gid);
      NamesMore(t, front, gid);
      hide Conditions, NamesDomain, NamesCidr;
      ListsMore(t, front, gid);
    }
  }

  /** What one group contributes. */
  lemma GroupLists(t: Tables, gid: int)
    ensures forall d :: NamesDomain(t, [gid], d) <==> Conditions(t, gid).Some? && d in Conditions(t, gid).value.0
    ensures forall x :: NamesCidr(t, [gid], x) <==> Conditions(t, gid).Some? && x in Conditions(t, gid).value.1
    ensures Conditions(t, gid).Some? ==> "" !in Conditions(t, gid).value.0 && "" !in Conditions(t, gid).value.1
  {
    assert gid in [gid];
    if Readable(t, gid) {
      var g := t.groups[gid];
      MergeTwo(g.domains.value, g.subscribedDomains.value);
      MergeTwo(g.cidrs.value, g.subscribedCidrs.value);
      hide Merge;
    }
  }

  lemma MergeTwo(a: seq<string>, b: seq<string>)
    ensures forall x :: x in Merge([a, b]) <==> x != "" && (x in a || x in b)
  {
    var both := [a, b];
    MergeExact(both);
    assert both[0] in both && both[1] in both;
    hide Merge;
  }

  lemma NamesMore(t: Tables, front: seq<int>, gid: int)
    ensures forall d :: NamesDomain(t, front + [gid], d) <==> NamesDomain(t, front, d) || NamesDomain(t, [gid], d)
    ensures forall x :: NamesCidr(t, front + [gid], x) <==> NamesCidr(t, front, x) || NamesCidr(t, [gid], x)
  {
    hide Readable;
  }

  lemma ListsMore(t: Tables, front: seq<int>, gid: int)
    ensures forall d :: (exists l <- DomainLists(t, front + [gid]) :: d in l) <==>
      (exists l <- DomainLists(t, front) :: d in l) || (Conditions(t, gid).Some? && d in Conditions(t, gid).value.0)
    ensures forall x :: (exists l <- CidrLists(t, front + [gid]) :: x in l) <==>
      (exists l <- CidrLists(t, front) :: x in l) || (Conditions(t, gid).Some? && x in Conditions(t, gid).value.1)
  {
    hide Conditions;
    assert (front + [gid])[..|front|] == front;
    var c := Conditions(t, gid);
    var ds, xs := DomainLists(t, front + [gid]), CidrLists(t, front + [gid]);
    assert c.Some? && c.value.0 != [] ==> ds[|ds| - 1] == c.value.0;
    assert c.Some? && c.value.1 != [] ==> xs[|xs| - 1] == c.value.1;
    assert forall l <- DomainLists(t, front) :: l in ds;
    assert forall l <- CidrLists(t, front) :: l in xs;
  }

  /** The merged conditions of a rule are exactly what its groups name. */
  lemma ConditionsExact(t: Tables, groupIds: seq<int>)
    ensures forall d :: d in Merge(DomainLists(t, groupIds)) <==> NamesDomain(t, groupIds, d)
    ensures forall x :: x in Merge(CidrLists(t, groupIds)) <==> NamesCidr(t, groupIds, x)
    ensures Merge(DomainLists(t, groupIds)) == [] <==> !exists d :: NamesDomain(t, groupIds, d)
    ensures Merge(CidrLists(t, groupIds)) == [] <==> !exists x :: NamesCidr(t, groupIds, x)
  {
    CollectedLists(t, groupIds);
    MergeExact(DomainLists(t, groupIds));
    MergeExact(CidrLists(t, groupIds));
    hide Merge, DomainLists, CidrLists, NamesDomain, NamesCidr;
    FirstEntry(Merge(DomainLists(t, groupIds)));
    FirstEntry(Merge(CidrLists(t, groupIds)));
  }

  lemma FirstEntry(xs: seq<string>)
    ensures xs == [] <==> forall x :: x !in xs
  {
    assert xs != [] ==> xs[0] in xs;
  }

  lemma ActionLeads(t: Tables, rule: DbRule)
    ensures forall tag :: ActionTag(t, rule) == Ok(tag) <==> LeadsTo(t, rule, tag)
    ensures ActionTag(t, rule) != Err(NoConditions)
  {
  }

  /**
   A stored rule is generated exactly if it survives; then its generated domains and addresses are exactly what its
   groups name, and all lead where its action does. It is skipped for want of conditions exactly if there are none.
   */
  lemma GeneratedExactly(t: Tables, rule: DbRule)
    ensures CompileRule(t, rule).Ok? <==> Survives(t, rule)
    ensures CompileRule(t, rule).Ok? ==> forall g <- CompileRule(t, rule).value.rules ::
      && g.Field? && LeadsTo(t, rule, g.outboundTag)
      && (g.domains != [] ==> forall d :: d in g.domains <==> NamesDomain(t, rule.groupIds.value, d))
      && (g.ips != [] ==> forall x :: x in g.ips <==> NamesCidr(t, rule.groupIds.value, x))
    ensures CompileRule(t, rule) == Err(NoConditions) <==>
      && rule.groupIds.Some? && rule.groupIds.value != []
      && (forall d :: !NamesDomain(t, rule.groupIds.value, d)) && (forall x :: !NamesCidr(t, rule.groupIds.value, x))
  {
    hide Merge, DomainLists, CidrLists, ActionTag, LeadsTo;
    ActionLeads(t, rule);
    if rule.groupIds.Some? {
      ConditionsExact(t, rule.groupIds.value);
      if rule.groupIds.value == [] {
        assert forall d :: !NamesDomain(t, [], d);
        assert forall x :: !NamesCidr(t, [], x);
      }
      hide NamesDomain, NamesCidr;
      if rule.inboundIds.Some? {
        SomeLive(t, rule.inboundIds.value);
      }
      hide LiveTags;
    }
  }

  lemma SomeLive(t: Tables, ids: seq<int>)
    ensures LiveTags(t, ids) != [] <==> exists id <- ids :: id in t.inbounds
  {
    var tags := LiveTags(t, ids);
    if tags != [] {
      assert tags[0] in tags;
    }
    if id :| id in ids && id in t.inbounds {
      assert t.inbounds[id] in tags;
    }
  }

  ghost predicate Known(t: Tables, tag: string) {
    tag == BLOCK_TAG || (exists id <- t.nodes :: t.nodes[id] == tag) || (tag == t.defaultTag && tag != "")
  }

  /**
   A compiled rule matches exactly when the stored rule says so; it has a condition, a known outbound tag, and it
   is restricted to inbounds exactly when the stored rule is.
   */
  lemma CompiledMeaning(w: World, t: Tables, rule: DbRule, c: Conn, resolved: bool)
    requires CompileRule(t, rule).Ok?
    ensures var compiled := CompileRule(t, rule).value;
      && (exists g <- compiled.rules :: Applies(w, g, c, resolved)) <==> Says(w, t, rule, c, resolved)
    ensures forall g <- CompileRule(t, rule).value.rules ::
      && g.Field? && Ok(g.outboundTag) == ActionTag(t, rule) && Known(t, g.outboundTag)
      && (g.domains != [] <==> g.ips == [])
      && (g.inboundTags == [] <==> rule.inboundIds.value == [])
    ensures CompileRule(t, rule).value.isBlock <==> rule.action == "block"
  {
    hide Merge, DomainLists, CidrLists, NamesDomain, NamesCidr, Applies;
    var domains, cidrs := Merge(DomainLists(t, rule.groupIds.value)), Merge(CidrLists(t, rule.groupIds.value));
    ConditionsExact(t, rule.groupIds.value);
    var tags, tag := LiveTags(t, rule.inboundIds.value), ActionTag(t, rule).value;
    EmittedMeaning(w, tags, domains, cidrs, tag, c, resolved);
  }

  lemma EmittedMeaning(w: World, tags: seq<string>, domains: seq<string>, cidrs: seq<string>, tag: string, c: Conn, resolved: bool)
    ensures (exists g <- Emitted(tags, domains, cidrs, tag) :: Applies(w, g, c, resolved)) <==>
      (tags == [] || c.inboundTag in tags) &&
      ((c.target.DomainTarget? && AnyDomain(w, domains, c.target.name)) || AnyIp(w, cidrs, Visible(w, c, resolved)))
  {
    var rules := Emitted(tags, domains, cidrs, tag);
    if domains != [] {
      assert rules[0] in rules;
    }
    if cidrs != [] {
      assert rules[|rules| - 1] in rules;
    }
  }

  /** The first stored rule of one part that survives compilation and says something about the connection. */
  ghost function Decision(w: World, t: Tables, rules: seq<DbRule>, blocking: bool, c: Conn, resolved: bool): Option<string> {
    if rules == [] then None
    else
      match Decision(w, t, rules[..|rules| - 1], blocking, c, resolved)
      case Some(tag) => Some(tag)
      case None =>
        var rule := rules[|rules| - 1];
        if Survives(t, rule) && (rule.action == "block") == blocking && Says(w, t, rule, c, resolved)
        then Some(Destination(t, rule)) else None
  }

  ghost function Destination(t: Tables, rule: DbRule): (tag: string)
    requires exists tag :: LeadsTo(t, rule, tag)
    ensures LeadsTo(t, rule, tag)
  {
    var tag :| LeadsTo(t, rule, tag); tag
  }

  lemma {:induction false} PartDecides(w: World, t: Tables, rules: seq<DbRule>, blocking: bool, c: Conn, resolved: bool)
    ensures FirstMatch(w, CompileAll(t, rules, blocking), c, resolved) == Decision(w, t, rules, blocking, c, resolved)
  {
    if rules != [] {
      var front, rule := rules[..|rules| - 1], rules[|rules| - 1];
      PartDecides(w, t, front, blocking, c, resolved);
      LastRuleDecides(w, t, rule, blocking, c, resolved);
      hide CompileRule, Says, Survives, LeadsTo;
      var last := match CompileRule(t, rule) {
        case Err(_) => []
        case Ok(compiled) => if compiled.isBlock == blocking then compiled.rules else []
      };
      FirstMatchConcat(w, CompileAll(t, front, blocking), last, c, resolved);
    }
  }

  lemma LastRuleDecides(w: World, t: Tables, rule: DbRule, blocking: bool, c: Conn, resolved: bool)
    ensures CompileRule(t, rule).Ok? ==> (CompileRule(t, rule).value.isBlock <==> rule.action == "block")
    ensures CompileRule(t, rule).Ok? <==> Survives(t, rule)
    ensures CompileRule(t, rule).Ok? ==>
      FirstMatch(w, CompileRule(t, rule).value.rules, c, resolved) ==
        if Says(w, t, rule, c, resolved) then Some(Destination(t, rule)) else None
  {
    GeneratedExactly(t, rule);
    ActionLeads(t, rule);
    if CompileRule(t, rule).Ok? {
      CompiledMeaning(w, t, rule, c, resolved);
      FirstMatchNone(w, CompileRule(t, rule).value.rules, c, resolved);
      hide CompileRule, Survives, Says, LeadsTo, ActionTag, Applies, FirstMatch;
      assert ActionTag(t, rule) == Ok(Destination(t, rule));
    }
  }

  /**
   Within one matching pass the generated list decides as the stored rules do: blocking rules first, then the rest
   in their order, skipped rules aside.
   */
  lemma CompilationPreservesMeaning(w: World, t: Tables, rules: seq<DbRule>, c: Conn, resolved: bool)
    ensures FirstMatch(w, CompileAll(t, rules, true) + CompileAll(t, rules, false), c, resolved) ==
      match Decision(w, t, rules, true, c, resolved)
      case Some(tag) => Some(tag)
      case None => Decision(w, t, rules, false, c, resolved)
  {
    FirstMatchConcat(w, CompileAll(t, rules, true), CompileAll(t, rules, false), c, resolved);
    PartDecides(w, t, rules, true, c, resolved);
    PartDecides(w, t, rules, false, c, resolved);
  }

  /** No generated rule is without a condition or names an outbound that was not written. */
  lemma {:induction false} GeneratedShape(t: Tables, rules: seq<DbRule>, blocking: bool)
    ensures forall g <- CompileAll(t, rules, blocking) ::
      g.Field? && (g.domains != [] <==> g.ips == []) && Known(t, g.outboundTag)
  {
    if rules != [] {
      GeneratedShape(t, rules[..|rules| - 1], blocking);
      var rule := rules[|rules| - 1];
      if CompileRule(t, rule).Ok? {
        CompiledMeaning(World(_ => [], (_, _) => false, (_, _) => false, (_, _, _) => false), t, rule,
                        Conn("", IpTarget("")), false);
      }
    }
  }
}
