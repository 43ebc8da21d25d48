/** The edits of the rule table, and what every run of them keeps. */
module RuleEdits {
  import opened Collections
  import opened Coverage

  predicate ValidRule(db: Db, rule: Rule) {
    && Decode(rule.groupIds).Some? && Decode(rule.groupIds).value != []
    && (forall x <- Decode(rule.groupIds).value :: x in db.groups)
    && (rule.action == Block || rule.action == Direct ||
        (rule.action == Proxy && rule.outboundId > 0 && rule.outboundId in db.outbounds))
  }

  /** The index of the rule with this id, or the length. */
  function IndexOf(rules: seq<Rule>, id: int): (i: nat)
    ensures i <= |rules| && (i < |rules| ==> rules[i].id == id) && forall j :: 0 <= j < i ==> rules[j].id != id
  {
    if rules == [] || rules[0].id == id then 0 else 1 + IndexOf(rules[1..], id)
  }

  function Save(rules: seq<Rule>, rule: Rule): seq<Rule> {
    var i := IndexOf(rules, rule.id);
    if i < |rules| then rules[i := rule] else rules + [rule]
  }

  /** A rule without an id gets a new one; the others are written over the row of their id. */
  function AfterAdd(db: Db, rule: Rule, newId: int): Option<Db> {
    if ValidRule(db, rule) && Admissible(db.rules, rule)
    then Some(db.(rules := Save(db.rules, if rule.id == 0 then rule.(id := newId) else rule)))
    else None
  }

  /** The place in the order is kept, the column of older versions is cleared. */
  function Merged(before: Rule, rule: Rule): Rule {
    rule.(id := before.id, priority := before.priority, legacyGroupId := 0)
  }

  function AfterUpdate(db: Db, rule: Rule): Option<Db> {
    var i := IndexOf(db.rules, rule.id);
    if ValidRule(db, rule) && Admissible(db.rules, rule) && i < |db.rules|
    then Some(db.(rules := db.rules[i := Merged(db.rules[i], rule)]))
    else None
  }

  function WithoutRule(rules: seq<Rule>, id: int): seq<Rule> {
    if rules == [] then []
    else
      var r := rules[|rules| - 1];
      WithoutRule(rules[..|rules| - 1], id) + if r.id == id then [] else [r]
  }

  function IdsOf(rules: seq<Rule>): (ids: seq<int>)
    ensures |ids| == |rules| && forall i :: 0 <= i < |ids| ==> ids[i] == rules[i].id
  {
    seq(|rules|, i requires 0 <= i < |rules| => rules[i].id)
  }

  /** Every rule gets the position of its id in the list. */
  function Ordered(rules: seq<Rule>, ids: seq<int>): (r: seq<Rule>)
    ensures |r| == |rules|
    ensures forall i :: 0 <= i < |r| ==> r[i] == Placed(rules[i], ids)
  {
    seq(|rules|, i requires 0 <= i < |rules| => Placed(rules[i], ids))
  }

  function Placed(r: Rule, ids: seq<int>): Rule {
    var k := Position(ids, r.id);
    if k < |ids| then r.(priority := k) else r
  }

  function Position(ids: seq<int>, id: int): (k: nat)
    ensures k <= |ids| && (k < |ids| ==> ids[k] == id) && id !in ids[..k]
  {
    if ids == [] then 0
    else
      var front := Position(ids[..|ids| - 1], id);
      if front < |ids| - 1 then front
      else if ids[|ids| - 1] == id then |ids| - 1 else |ids|
  }

  predicate Distinct(ids: seq<int>) {
    forall i, j :: 0 <= i < j < |ids| ==> ids[i] != ids[j]
  }

  /** As many ids as rules, none twice, each of a rule. */
  predicate NamesEach(rules: seq<Rule>, ids: seq<int>) {
    |ids| == |rules| && Distinct(ids) && forall x <- ids :: x in IdsOf(rules)
  }

  function AfterReorder(db: Db, ids: seq<int>): Option<Db> {
    if NamesEach(db.rules, ids) then Some(db.(rules := Ordered(db.rules, ids))) else None
  }

  function AfterAddInbound(db: Db, newId: int): Option<Db> {
    if newId > 0 && !Attachable(db.rules) then None
    else Some(db.(inbounds := db.inbounds + {newId}, rules := if newId > 0 then AttachAll(db.rules, newId) else db.rules))
  }

  function AfterDelInbound(db: Db, id: int): Option<Db> {
    if id <= 0 then Some(db.(inbounds := db.inbounds - {id}))
    else if !Detachable(db.rules, id) then None
    else Some(db.(inbounds := db.inbounds - {id}, rules := DetachAll(db.rules, id)))
  }

  predicate GroupFree(db: Db, id: int) {
    id <= 0 || forall r <- db.rules :: Decode(r.groupIds).Some? && id !in Decode(r.groupIds).value
  }

  predicate OutboundFree(db: Db, id: int) {
    forall r <- db.rules :: r.action == Proxy ==> r.outboundId != id
  }

  function Prioritised(rows: seq<Rule>, id: int, priority: int): (r: seq<Rule>)
    ensures |r| == |rows|
    ensures forall j :: 0 <= j < |r| ==> r[j] == if rows[j].id == id then rows[j].(priority := priority) else rows[j]
  {
    seq(|rows|, j requires 0 <= j < |rows| => if rows[j].id == id then rows[j].(priority := priority) else rows[j])
  }

  // ----- lists of ids

  /** So no rule is left out. */
  lemma {:induction false} NoneLeftOut(all: seq<int>, ids: seq<int>)
    requires Distinct(all) && Distinct(ids) && |ids| == |all| && forall x <- ids :: x in all
    ensures forall x <- all :: x in ids
    decreases |ids|
  {
    if ids != [] {
      var front, x := ids[..|ids| - 1], ids[|ids| - 1];
      assert ids == front + [x];
      assert x in ids;
      var j :| 0 <= j < |all| && all[j] == x;
      var rest := TakeOut(all, j);
      hide Distinct;
      assert Distinct(front) && x !in front by { DistinctFront(ids); }
      NoneLeftOut(rest, front);
    }
  }

  lemma DistinctFront(ids: seq<int>)
    requires ids != [] && Distinct(ids)
    ensures Distinct(ids[..|ids| - 1]) && ids[|ids| - 1] !in ids[..|ids| - 1]
  {
  }

  lemma TakeOut(all: seq<int>, j: nat) returns (rest: seq<int>)
    requires j < |all| && Distinct(all)
    ensures |rest| == |all| - 1 && Distinct(rest) && forall y :: y in all <==> y == all[j] || y in rest
  {
    rest := all[..j] + all[j + 1..];
    assert all == all[..j] + [all[j]] + all[j + 1..];
  }

  lemma OrderedStep(rules: seq<Rule>, ids: seq<int>, k: nat)
    requires k < |ids| && ids[k] !in ids[..k]
    ensures Prioritised(Ordered(rules, ids[..k]), ids[k], k) == Ordered(rules, ids[..k + 1])
  {
    assert ids[..k + 1][..k] == ids[..k];
    var next, goal := Prioritised(Ordered(rules, ids[..k]), ids[k], k), Ordered(rules, ids[..k + 1]);
    forall i | 0 <= i < |rules|
      ensures next[i] == goal[i]
    {
      PlacedStep(rules[i], ids, k);
    }
  }

  lemma OrderedNone(rules: seq<Rule>)
    ensures Ordered(rules, []) == rules
  {
  }

  lemma PlacedStep(r: Rule, ids: seq<int>, k: nat)
    requires k < |ids| && ids[k] !in ids[..k]
    ensures Placed(r, ids[..k + 1]) == (if r.id == ids[k] then Placed(r, ids[..k]).(priority := k) else Placed(r, ids[..k]))
    ensures Placed(r, ids[..k]).id == r.id
  {
    assert ids[..k + 1][..k] == ids[..k];
  }

  lemma Unreadable(rules: seq<Rule>, i: nat)
    requires i < |rules| && Decode(rules[i].inboundIds).None?
    ensures !Readable(rules)
  {
    assert rules[i] in rules;
  }

  lemma Unstorable(rules: seq<Rule>, i: nat, id: int)
    requires i < |rules| && id > 0 && Decode(rules[i].inboundIds).Some? && !Storable(rules[i], id)
    ensures !Detachable(rules, id)
  {
    assert rules[i] in rules;
  }

  lemma DetachStep(rules: seq<Rule>, i: nat, id: int)
    requires i < |rules| && Readable(rules[..i]) && Decode(rules[i].inboundIds).Some?
    ensures Readable(rules[..i + 1])
    ensures DetachAll(rules[..i + 1], id) == DetachAll(rules[..i], id) + DetachOne(rules[i], id)
  {
    assert rules[..i + 1] == rules[..i] + [rules[i]] && rules[..i + 1][..i] == rules[..i];
  }

  // ----- the service

  class RoutingRuleService {
    var inbounds: set<int>
    var groups: set<int>
    var outbounds: set<int>
    var rules: seq<Rule>

    ghost function Contents(): Db
      reads this
    {
      Db(inbounds, groups, outbounds, rules)
    }

    constructor ()
      ensures Contents() == Db({}, {}, {}, [])
    {
      inbounds, groups, outbounds, rules := {}, {}, {}, [];
    }

    method Validate(rule: Rule) returns (ok: bool)
      ensures ok <==> ValidRule(Contents(), rule)
    {
      var decoded := Decode(rule.groupIds);
      if decoded.None? {
        return false;
      }
      var groupIds := decoded.value;
      if |groupIds| == 0 {
        return false;
      }
      for i := 0 to |groupIds|
        invariant forall j :: 0 <= j < i ==> groupIds[j] in groups
      {
        var g := groupIds[i];
        if g !in groups {
          assert g in groupIds;
          return false;
        }
      }
      match rule.action
      case Block => return true;
      case Direct => return true;
      case Proxy => return rule.outboundId > 0 && rule.outboundId in outbounds;
      case OtherAction => return false;
    }

    /** Disabled rules take part as well; a rule whose own lists are unreadable holds nobody else up. */
    method CheckConflict(rule: Rule) returns (ok: bool)
      ensures ok <==> Admissible(rules, rule)
    {
      var ids := Decode(rule.inboundIds);
      if ids.None? {
        return false;
      }
      var groupIds := Decode(rule.groupIds);
      if groupIds.None? {
        return false;
      }
      for i := 0 to |rules|
        invariant forall j :: 0 <= j < i && rules[j].id != rule.id ==> !Clash(rule, rules[j])
      {
        var other := rules[i];
        assert other in rules;
        if other.id == rule.id {
          continue;
        }
        var otherGroupIds := Decode(other.groupIds);
        if otherGroupIds.None? {
          continue;
        }
        var shared, which := IntersectGroups(groupIds.value, otherGroupIds.value);
        if !shared {
          continue;
        }
        if rule.applyToNew && other.applyToNew {
          return false;
        }
        var otherIds := Decode(other.inboundIds);
        if otherIds.None? {
          continue;
        }
        var overlap, who := IntersectInbounds(ids.value, otherIds.value);
        if !overlap {
          continue;
        }
        return false;
      }
      return true;
    }

    method SaveRule(rule: Rule)
      modifies this`rules
      ensures rules == Save(old(rules), rule)
    {
      var i := IndexOf(rules, rule.id);
      rules := if i < |rules| then rules[i := rule] else rules + [rule];
    }

    method Add(rule: Rule, newId: int) returns (ok: bool)
      modifies this`rules
      ensures ok <==> AfterAdd(old(Contents()), rule, newId).Some?
      ensures Contents() == if ok then AfterAdd(old(Contents()), rule, newId).value else old(Contents())
    {
      ok := Validate(rule);
      if !ok {
        return;
      }
      ok := CheckConflict(rule);
      if !ok {
        return;
      }
      SaveRule(if rule.id == 0 then rule.(id := newId) else rule);
    }

    method Update(rule: Rule) returns (ok: bool)
      modifies this`rules
      ensures ok <==> AfterUpdate(old(Contents()), rule).Some?
      ensures Contents() == if ok then AfterUpdate(old(Contents()), rule).value else old(Contents())
    {
      ok := Validate(rule);
      if !ok {
        return;
      }
      ok := CheckConflict(rule);
      if !ok {
        return;
      }
      var i := IndexOf(rules, rule.id);
      if i == |rules| {
        return false;
      }
      var row := rules[i];
      row := row.(remark := rule.remark, inboundIds := rule.inboundIds, groupIds := rule.groupIds, legacyGroupId := 0,
                  action := rule.action, outboundId := rule.outboundId, applyToNew := rule.applyToNew, enable := rule.enable);
      rules := rules[i := row];
    }

    method Del(id: int)
      modifies this`rules
      ensures rules == WithoutRule(old(rules), id)
    {
      var kept: seq<Rule> := [];
      for i := 0 to |rules|
        invariant rules == old(rules) && kept == WithoutRule(rules[..i], id)
      {
        assert rules[..i + 1][..i] == rules[..i];
        if rules[i].id != id {
          kept := kept + [rules[i]];
        }
      }
      assert rules[..|rules|] == rules;
      rules := kept;
    }

    method NamesAll(ids: seq<int>) returns (ok: bool)
      ensures ok <==> NamesEach(rules, ids)
    {
      if |ids| != |rules| {
        return false;
      }
      ghost var all := IdsOf(rules);
      var remaining := set i | 0 <= i < |rules| :: rules[i].id;
      assert forall x :: x in remaining <==> x in all;
      for k := 0 to |ids|
        invariant Distinct(ids[..k]) && forall x <- ids[..k] :: x in all
        invariant forall x :: x in remaining <==> x in all && x !in ids[..k]
      {
        assert ids[..k + 1] == ids[..k] + [ids[k]];
        if ids[k] !in remaining {
          assert ids[k] in ids;
          return false;
        }
        remaining := remaining - {ids[k]};
      }
      assert ids[..|ids|] == ids;
      return true;
    }

    /** The list must name every rule once. */
    method Reorder(ids: seq<int>) returns (ok: bool)
      modifies this`rules
      ensures ok <==> AfterReorder(old(Contents()), ids).Some?
      ensures Contents() == if ok then AfterReorder(old(Contents()), ids).value else old(Contents())
    {
      ok := NamesAll(ids);
      if !ok {
        return;
      }
      var updated := rules;
      OrderedNone(rules);
      hide Ordered, Prioritised;
      for k := 0 to |ids|
        invariant updated == Ordered(rules, ids[..k]) && rules == old(rules)
      {
        updated := SetPriority(updated, ids[k], k);
        assert ids[k] !in ids[..k];
        OrderedStep(rules, ids, k);
      }
      assert ids[..|ids|] == ids;
      rules := updated;
    }

    method SetPriority(rows: seq<Rule>, id: int, priority: int) returns (r: seq<Rule>)
      ensures r == Prioritised(rows, id, priority)
    {
      r := [];
      for i := 0 to |rows|
        invariant |r| == i && forall j :: 0 <= j < i ==> r[j] == if rows[j].id == id then rows[j].(priority := priority) else rows[j]
      {
        r := r + [if rows[i].id == id then rows[i].(priority := priority) else rows[i]];
      }
    }

    /** Adds the new inbound to every rule that takes in new ones; everyone rules already cover it. */
    method AttachInbound(inboundId: int) returns (ok: bool)
      modifies this`rules
      ensures ok <==> inboundId <= 0 || Attachable(old(rules))
      ensures ok ==> rules == if inboundId > 0 then AttachAll(old(rules), inboundId) else old(rules)
    {
      if inboundId <= 0 {
        return true;
      }
      hide Clean;
      for i := 0 to |rules|
        invariant |rules| == |old(rules)|
        invariant forall j :: 0 <= j < i ==> rules[j] == AttachOne(old(rules)[j], inboundId)
        invariant forall j :: i <= j < |rules| ==> rules[j] == old(rules)[j]
        invariant forall j :: 0 <= j < i ==> old(rules)[j].applyToNew ==> Decode(old(rules)[j].inboundIds).Some?
      {
        var rule := rules[i];
        if !rule.applyToNew {
          continue;
        }
        var ids := Decode(rule.inboundIds);
        if ids.None? {
          assert rule in old(rules);
          return false;
        }
        if |ids.value| == 0 {
          continue;
        }
        var encoded := EncodeIds(ids.value + [inboundId]);
        if encoded == rule.inboundIds {
          continue;
        }
        rules := rules[i := rule.(inboundIds := encoded)];
      }
      assert rules == AttachAll(old(rules), inboundId);
      return true;
    }

    /** One transaction: the new inbound and its rules, or neither. */
    method AddInbound(newId: int) returns (ok: bool)
      modifies this`inbounds, this`rules
      ensures ok <==> AfterAddInbound(old(Contents()), newId).Some?
      ensures Contents() == if ok then AfterAddInbound(old(Contents()), newId).value else old(Contents())
    {
      var saved := rules;
      ok := AttachInbound(newId);
      if !ok {
        rules := saved;
        return;
      }
      inbounds := inbounds + {newId};
    }

    /** What becomes of one rule: None when it is not touched, otherwise the inbounds it keeps. */
    method PlanOne(rule: Rule, inboundId: int) returns (ok: bool, rest: Option<seq<int>>)
      ensures ok <==> Decode(rule.inboundIds).Some?
      ensures ok ==> (rest.Some? <==> inboundId in Decode(rule.inboundIds).value)
      ensures ok && rest.Some? ==> rest.value == Without(Decode(rule.inboundIds).value, inboundId)
    {
      var ids := Decode(rule.inboundIds);
      if ids.None? {
        return false, None;
      }
      if |ids.value| == 0 {
        return true, None;
      }
      var left: seq<int> := [];
      var hit := false;
      for i := 0 to |ids.value|
        invariant left == Without(ids.value[..i], inboundId) && (hit <==> inboundId in ids.value[..i])
      {
        assert ids.value[..i + 1] == ids.value[..i] + [ids.value[i]] && ids.value[..i + 1][..i] == ids.value[..i];
        if ids.value[i] == inboundId {
          hit := true;
          continue;
        }
        left := left + [ids.value[i]];
      }
      assert ids.value[..|ids.value|] == ids.value;
      return true, if hit then Some(left) else None;
    }

    /** Takes the inbound out of every rule; a rule that named nobody else is deleted, never emptied. */
    method DetachInbound(inboundId: int) returns (ok: bool)
      modifies this`rules
      ensures ok <==> inboundId <= 0 || Detachable(old(rules), inboundId)
      ensures ok ==> rules == if inboundId > 0 then DetachAll(old(rules), inboundId) else old(rules)
    {
      if inboundId <= 0 {
        return true;
      }
      var kept: seq<Rule> := [];
      assert rules[..0] == [];
      for i := 0 to |rules|
        invariant rules == old(rules) && Readable(rules[..i])
        invariant forall j :: 0 <= j < i ==> Decode(rules[j].inboundIds).Some? && Storable(rules[j], inboundId)
        invariant kept == DetachAll(rules[..i], inboundId)
      {
        hide Clean, Without, DetachAll, Readable;
        var rule := rules[i];
        var planned, rest := PlanOne(rule, inboundId);
        if !planned {
          Unreadable(rules, i);
          return false;
        }
        DetachStep(rules, i, inboundId);
        if rest.None? {
          kept := kept + [rule];
          continue;
        }
        if |rest.value| == 0 {
          continue;
        }
        var encoded := EncodeInboundIdsStrict(rest.value);
        if encoded.None? {
          Unstorable(rules, i, inboundId);
          return false;
        }
        kept := kept + [rule.(inboundIds := encoded.value)];
      }
      assert rules[..|rules|] == rules;
      rules := kept;
      return true;
    }

    /** One transaction again. */
    method DelInbound(id: int) returns (ok: bool)
      modifies this`inbounds, this`rules
      ensures ok <==> AfterDelInbound(old(Contents()), id).Some?
      ensures Contents() == if ok then AfterDelInbound(old(Contents()), id).value else old(Contents())
    {
      var saved := rules;
      ok := DetachInbound(id);
      if !ok {
        rules := saved;
        return;
      }
      inbounds := inbounds - {id};
    }

    method CheckDomainGroupRefs(groupId: int) returns (free: bool)
      ensures free <==> GroupFree(Contents(), groupId)
    {
      if groupId <= 0 {
        return true;
      }
      var count := 0;
      for i := 0 to |rules|
        invariant count >= 0
        invariant forall j :: 0 <= j < i ==> Decode(rules[j].groupIds).Some?
        invariant count == 0 <==> forall j :: 0 <= j < i ==> groupId !in Decode(rules[j].groupIds).value
      {
        var rule := rules[i];
        assert rule in rules;
        var ids := Decode(rule.groupIds);
        if ids.None? {
          return false;
        }
        if groupId in ids.value {
          count := count + 1;
        }
      }
      if count > 0 {
        var j :| 0 <= j < |rules| && groupId in Decode(rules[j].groupIds).value;
        assert rules[j] in rules;
      }
      return count == 0;
    }
  }

  // ----- what every edit keeps

  datatype Edit =
    | AddRule(rule: Rule, newId: int)
    | UpdateRule(rule: Rule)
    | DelRule(id: int)
    | Reorder(ids: seq<int>)
    | AddInbound(newId: int)
    | DelInbound(id: int)
    | AddGroup(newId: int)
    | DelGroup(id: int)
    | AddOutbound(newId: int)
    | DelOutbound(id: int)

  function After(db: Db, e: Edit): Option<Db> {
    match e
    case AddRule(rule, newId) => AfterAdd(db, rule, newId)
    case UpdateRule(rule) => AfterUpdate(db, rule)
    case DelRule(id) => Some(db.(rules := WithoutRule(db.rules, id)))
    case Reorder(ids) => AfterReorder(db, ids)
    case AddInbound(newId) => AfterAddInbound(db, newId)
    case DelInbound(id) => AfterDelInbound(db, id)
    case AddGroup(newId) => Some(db.(groups := db.groups + {newId}))
    case DelGroup(id) => if GroupFree(db, id) then Some(db.(groups := db.groups - {id})) else None
    case AddOutbound(newId) => Some(db.(outbounds := db.outbounds + {newId}))
    case DelOutbound(id) => if OutboundFree(db, id) then Some(db.(outbounds := db.outbounds - {id})) else None
  }

  /** A refused edit changes nothing. */
  function Step(db: Db, e: Edit): Db {
    match After(db, e)
    case Some(r) => r
    case None => db
  }

  predicate ListsInbounds(db: Db, rule: Rule) {
    Decode(rule.inboundIds).Some? ==> forall x <- Decode(rule.inboundIds).value :: x in db.inbounds
  }

  /**
   What is assumed of an edit: the database hands out positive ids that are not in use, possibly ones used before,
   and a saved rule lists existing inbounds, which the validation does not check.
   */
  predicate Legal(db: Db, e: Edit) {
    match e
    case AddRule(rule, newId) => newId > 0 && newId !in IdsOf(db.rules) && ListsInbounds(db, rule)
    case UpdateRule(rule) => ListsInbounds(db, rule)
    case AddInbound(newId) => newId > 0 && newId !in db.inbounds
    case AddGroup(newId) => newId > 0 && newId !in db.groups
    case AddOutbound(newId) => newId > 0 && newId !in db.outbounds
    case DelGroup(id) => id > 0
    case _ => true
  }

  /** Replacing or adding one rule that clashes with no other keeps the rules apart. */
  lemma SaveKeepsExclusive(rules: seq<Rule>, rule: Rule)
    requires UniqueIds(rules) && Exclusive(rules) && forall s <- rules :: s.id != rule.id ==> !Clash(rule, s)
    ensures UniqueIds(Save(rules, rule)) && Exclusive(Save(rules, rule))
    ensures forall r <- Save(rules, rule) :: r == rule || r in rules
  {
    forall r, s
      ensures Clash(r, s) <==> Clash(s, r)
    {
      ClashSymmetric(r, s);
    }
    hide Clash;
    var i := IndexOf(rules, rule.id);
    assert forall j :: 0 <= j < |rules| && j != i ==> rules[j].id != rule.id && rules[j] in rules;
  }

  lemma ClashSymmetric(r: Rule, s: Rule)
    ensures Clash(r, s) <==> Clash(s, r)
  {
  }

  lemma AddKeepsValid(db: Db, rule: Rule, newId: int)
    requires Valid(db) && Legal(db, AddRule(rule, newId))
    ensures Valid(Step(db, AddRule(rule, newId)))
  {
    if AfterAdd(db, rule, newId).Some? {
      var saved := if rule.id == 0 then rule.(id := newId) else rule;
      assert forall s :: Clash(saved, s) <==> Clash(rule, s);
      assert RefsLive(db, saved);
      assert forall s <- db.rules :: s.id != rule.id ==> s.id != 0;
      hide Clash, RefsLive, ValidRule;
      SaveKeepsExclusive(db.rules, saved);
      hide Exclusive, Save;
    }
  }

  lemma UpdateKeepsValid(db: Db, rule: Rule)
    requires Valid(db) && Legal(db, UpdateRule(rule))
    ensures Valid(Step(db, UpdateRule(rule)))
  {
    var i := IndexOf(db.rules, rule.id);
    if AfterUpdate(db, rule).Some? {
      var saved := Merged(db.rules[i], rule);
      assert forall s :: Clash(saved, s) <==> Clash(rule, s);
      assert RefsLive(db, saved);
      assert db.rules[i] in db.rules;
      hide Clash, RefsLive, ValidRule, Merged;
      SaveKeepsExclusive(db.rules, saved);
      assert Save(db.rules, saved) == db.rules[i := saved];
      hide Exclusive, Save;
    }
  }

  lemma {:induction false} RemovedRule(rules: seq<Rule>, id: int)
    requires UniqueIds(rules) && Exclusive(rules)
    ensures var r := WithoutRule(rules, id);
      UniqueIds(r) && Exclusive(r) && forall s :: s in r <==> s in rules && s.id != id
  {
    if rules != [] {
      var front, last := rules[..|rules| - 1], rules[|rules| - 1];
      assert rules == front + [last];
      hide Clash;
      RemovedRule(front, id);
      KeepApart(rules, WithoutRule(front, id));
    }
  }

  /** Rules taken from the front stay apart from the last one. */
  lemma KeepApart(rules: seq<Rule>, some: seq<Rule>)
    requires rules != [] && UniqueIds(rules) && Exclusive(rules) && UniqueIds(some) && Exclusive(some)
    requires forall s <- some :: s in rules[..|rules| - 1]
    ensures UniqueIds(some + [rules[|rules| - 1]]) && Exclusive(some + [rules[|rules| - 1]])
  {
    hide Clash;
    var last := rules[|rules| - 1];
    forall s | s in some
      ensures s.id != last.id && !Clash(s, last)
    {
      var i :| 0 <= i < |rules| - 1 && rules[i] == s;
    }
    assert forall i :: 0 <= i < |some| ==> some[i] in some;
  }

  /** Edits that leave ids, scopes and targets alone keep everything. */
  lemma SameScopesValid(db: Db, rules: seq<Rule>)
    requires Valid(db) && |rules| == |db.rules|
    requires forall i :: 0 <= i < |rules| ==> rules[i] == db.rules[i].(priority := rules[i].priority)
    ensures Valid(db.(rules := rules))
  {
    assert forall i :: 0 <= i < |rules| ==> db.rules[i] in db.rules;
    forall i, j | 0 <= i < j < |rules|
      ensures !Clash(rules[i], rules[j])
    {
      assert !Clash(db.rules[i], db.rules[j]);
    }
  }

  lemma AttachKeepsValid(db: Db, newId: int)
    requires Valid(db) && Legal(db, AddInbound(newId))
    ensures Valid(Step(db, AddInbound(newId)))
  {
    if Attachable(db.rules) {
      var r := AttachAll(db.rules, newId);
      assert NoStaleClaim(db.rules, newId) by {
        hide SharesGroup;
        assert forall i :: 0 <= i < |db.rules| ==> db.rules[i] in db.rules;
      }
      AttachKeepsExclusive(db.rules, newId);
      hide Exclusive, NoStaleClaim, AttachOne;
      forall i | 0 <= i < |r|
        ensures RefsLive(db.(inbounds := db.inbounds + {newId}), r[i]) && r[i].id == db.rules[i].id
      {
        assert db.rules[i] in db.rules;
        AttachKeepsLive(db, db.rules[i], newId);
      }
      hide RefsLive, AttachAll;
      forall x | x in r
        ensures x.id != 0 && RefsLive(db.(inbounds := db.inbounds + {newId}), x)
      {
        var i :| 0 <= i < |r| && r[i] == x;
        assert db.rules[i] in db.rules;
      }
    }
  }

  lemma AttachKeepsLive(db: Db, r: Rule, newId: int)
    requires RefsLive(db, r)
    ensures RefsLive(db.(inbounds := db.inbounds + {newId}), AttachOne(r, newId)) && AttachOne(r, newId).id == r.id
  {
    if Decode(r.inboundIds).Some? {
      CleanExact(Decode(r.inboundIds).value + [newId]);
      hide Clean;
    }
  }

  /** The same rule for the same groups, covering no one new, and everyone only if it did before. */
  predicate Narrowed(before: Rule, after: Rule) {
    && after == before.(inboundIds := after.inboundIds)
    && Decode(before.inboundIds).Some? && Decode(after.inboundIds).Some?
    && (Decode(before.inboundIds).value == [] <==> Decode(after.inboundIds).value == [])
    && (forall x <- Decode(after.inboundIds).value :: x in Decode(before.inboundIds).value)
  }

  lemma NarrowedApart(r: Rule, r': Rule, s: Rule, s': Rule)
    requires Narrowed(r, r') && Narrowed(s, s') && !Clash(r, s)
    ensures !Clash(r', s')
  {
  }

  /** Without the inbound a rule is narrowed or gone, and no longer names it. */
  lemma DetachOneNarrows(r: Rule, id: int)
    requires Decode(r.inboundIds).Some? && Storable(r, id)
    ensures |DetachOne(r, id)| <= 1
    ensures forall s <- DetachOne(r, id) :: Narrowed(r, s) && id !in Decode(s.inboundIds).value
    ensures forall s <- DetachOne(r, id), x | x > 0 && x != id :: x in Decode(r.inboundIds).value ==> x in Decode(s.inboundIds).value
    ensures DetachOne(r, id) == [] <==>
      id in Decode(r.inboundIds).value && forall x <- Decode(r.inboundIds).value :: x == id
  {
    var ids := Decode(r.inboundIds).value;
    CleanExact(Without(ids, id));
    if Without(ids, id) != [] {
      NotEmptied(ids, id);
    }
    hide Clean, Without;
  }

  lemma NotEmptied(ids: seq<int>, id: int)
    requires Without(ids, id) != []
    ensures exists x :: x in ids && x != id
  {
    var x := Without(ids, id)[0];
    assert x in Without(ids, id);
  }

  lemma {:induction false} DetachedRules(rules: seq<Rule>, id: int)
    requires Readable(rules) && UniqueIds(rules) && Exclusive(rules) && forall r <- rules :: Storable(r, id)
    ensures var d := DetachAll(rules, id);
      && UniqueIds(d) && Exclusive(d)
      && (forall s <- d :: exists r <- rules :: Narrowed(r, s) && s in DetachOne(r, id))
      && (forall r <- rules, s <- DetachOne(r, id) :: s in d)
  {
    if rules != [] {
      var front, last := rules[..|rules| - 1], rules[|rules| - 1];
      assert rules == front + [last] && last in rules;
      hide Clash, DetachOne, Narrowed, Storable;
      DetachedRules(front, id);
      DetachOneNarrows(last, id);
      var d, one := DetachAll(front, id), DetachOne(last, id);
      if one != [] {
        assert one == [one[0]] && one[0] in one;
        forall s | s in d
          ensures s.id != one[0].id && !Clash(s, one[0])
        {
          LastApart(rules, id, s, one[0]);
        }
        AppendApart(d, one[0]);
      }
    }
  }

  lemma LastApart(rules: seq<Rule>, id: int, s: Rule, t: Rule)
    requires rules != [] && Readable(rules) && UniqueIds(rules) && Exclusive(rules)
    requires exists r <- rules[..|rules| - 1] :: Narrowed(r, s)
    requires Narrowed(rules[|rules| - 1], t)
    ensures s.id != t.id && !Clash(s, t)
  {
    hide Clash;
    var r :| r in rules[..|rules| - 1] && Narrowed(r, s);
    var i :| 0 <= i < |rules| - 1 && rules[i] == r;
    NarrowedApart(r, s, rules[|rules| - 1], t);
  }

  lemma AppendApart(d: seq<Rule>, t: Rule)
    requires UniqueIds(d) && Exclusive(d) && forall s <- d :: s.id != t.id && !Clash(s, t)
    ensures UniqueIds(d + [t]) && Exclusive(d + [t])
  {
    hide Clash;
    assert forall i :: 0 <= i < |d| ==> d[i] in d;
  }

  lemma DetachKeepsValid(db: Db, id: int)
    requires Valid(db)
    ensures Valid(Step(db, DelInbound(id)))
  {
    if id > 0 && Detachable(db.rules, id) {
      var d := DetachAll(db.rules, id);
      DetachedRules(db.rules, id);
      hide Exclusive, DetachAll, Storable;
      forall s | s in d
        ensures s.id != 0 && RefsLive(db.(inbounds := db.inbounds - {id}), s)
      {
        var r :| r in db.rules && Narrowed(r, s) && s in DetachOne(r, id);
        assert Storable(r, id);
        DetachOneNarrows(r, id);
      }
    } else if id <= 0 {
      assert id !in db.inbounds;
    }
  }

  lemma GroupsKeepValid(db: Db, id: int)
    requires Valid(db) && id > 0 && GroupFree(db, id)
    ensures Valid(Step(db, DelGroup(id)))
  {
    hide Exclusive;
    var after := db.(groups := db.groups - {id});
    forall r | r in db.rules
      ensures RefsLive(after, r)
    {
    }
  }

  lemma OutboundsKeepValid(db: Db, id: int)
    requires Valid(db) && OutboundFree(db, id)
    ensures Valid(Step(db, DelOutbound(id)))
  {
    hide Exclusive;
  }

  /** Every edit keeps the table sound: unique ids, rules apart, and no reference to anything gone. */
  lemma StepKeepsValid(db: Db, e: Edit)
    requires Valid(db) && Legal(db, e)
    ensures Valid(Step(db, e))
  {
    match e
    case AddRule(rule, newId) => AddKeepsValid(db, rule, newId);
    case UpdateRule(rule) => UpdateKeepsValid(db, rule);
    case DelRule(id) =>
      RemovedRule(db.rules, id);
      hide Exclusive, RefsLive;
    case Reorder(ids) =>
      SameScopesValid(db, Ordered(db.rules, ids));
    case AddInbound(newId) => AttachKeepsValid(db, newId);
    case DelInbound(id) => DetachKeepsValid(db, id);
    case AddGroup(newId) => hide Exclusive;
    case DelGroup(id) =>
      if GroupFree(db, id) {
        GroupsKeepValid(db, id);
      }
    case AddOutbound(newId) => hide Exclusive;
    case DelOutbound(id) =>
      if OutboundFree(db, id) {
        OutboundsKeepValid(db, id);
      }
  }

  function RunOf(edits: seq<Edit>): Db {
    if edits == [] then Db({}, {}, {}, []) else Step(RunOf(edits[..|edits| - 1]), edits[|edits| - 1])
  }

  predicate LegalRun(edits: seq<Edit>) {
    forall i :: 0 <= i < |edits| ==> Legal(RunOf(edits[..i]), edits[i])
  }

  lemma LegalPrefix(edits: seq<Edit>)
    requires edits != [] && LegalRun(edits)
    ensures LegalRun(edits[..|edits| - 1]) && Legal(RunOf(edits[..|edits| - 1]), edits[|edits| - 1])
  {
    hide Legal, RunOf;
    var front := edits[..|edits| - 1];
    forall i | 0 <= i < |front|
      ensures Legal(RunOf(front[..i]), front[i])
    {
      assert front[..i] == edits[..i];
    }
  }

  /**
   In every state any run of edits can reach, whatever ids are used again, each inbound is covered by at most one
   rule per domain group, and every reference leads to something that exists.
   */
  lemma {:induction false} CoveredAtMostOnce(edits: seq<Edit>)
    requires LegalRun(edits)
    ensures Valid(RunOf(edits)) && AtMostOne(RunOf(edits).rules)
  {
    if edits != [] {
      LegalPrefix(edits);
      hide LegalRun, Legal, Step;
      CoveredAtMostOnce(edits[..|edits| - 1]);
      StepKeepsValid(RunOf(edits[..|edits| - 1]), edits[|edits| - 1]);
    }
    hide Exclusive, AtMostOne;
    ExclusiveMeansOne(RunOf(edits).rules);
  }

  // ----- consequences

  /** Deleting an inbound changes coverage for nobody else: no rule is lost to them, and none is gained. */
  lemma DetachKeepsOthers(db: Db, id: int, inbound: int, group: int)
    requires Valid(db) && id > 0 && Detachable(db.rules, id) && inbound > 0 && inbound != id
    ensures var after := Step(db, DelInbound(id));
      && (forall r <- db.rules :: Covers(r, inbound, group) ==> exists s <- after.rules :: s.id == r.id && Covers(s, inbound, group))
      && (forall s <- after.rules :: Covers(s, inbound, group) ==> exists r <- db.rules :: r.id == s.id && Covers(r, inbound, group))
      && (forall s <- after.rules :: Decode(s.inboundIds).Some? && id !in Decode(s.inboundIds).value)
  {
    var d := DetachAll(db.rules, id);
    DetachedRules(db.rules, id);
    assert Step(db, DelInbound(id)).rules == d;
    hide Exclusive, DetachAll, Valid, Step, DetachOne, Covers, Narrowed;
    forall r | r in db.rules
      ensures Covers(r, inbound, group) ==> exists s <- d :: s.id == r.id && Covers(s, inbound, group)
      ensures forall s <- DetachOne(r, id) :: s.id == r.id && Decode(s.inboundIds).Some? && id !in Decode(s.inboundIds).value
      ensures forall s <- DetachOne(r, id) :: Covers(s, inbound, group) ==> Covers(r, inbound, group)
    {
      DetachOneCoverage(r, id, inbound, group);
      if Covers(r, inbound, group) {
        var s := DetachOne(r, id)[0];
        assert s in DetachOne(r, id) && s in d;
      }
    }
  }

  lemma DetachOneCoverage(r: Rule, id: int, inbound: int, group: int)
    requires Decode(r.inboundIds).Some? && Storable(r, id) && inbound > 0 && inbound != id
    ensures forall s <- DetachOne(r, id) :: s.id == r.id && Decode(s.inboundIds).Some? && id !in Decode(s.inboundIds).value
    ensures forall s <- DetachOne(r, id) :: Covers(s, inbound, group) ==> Covers(r, inbound, group)
    ensures Covers(r, inbound, group) ==> DetachOne(r, id) != [] && Covers(DetachOne(r, id)[0], inbound, group)
  {
    DetachOneNarrows(r, id);
    hide DetachOne, Storable;
    var one := DetachOne(r, id);
    if one != [] {
      assert one[0] in one && one == [one[0]];
    }
  }

  /** An id handed out again starts clean: only rules that take in new inbounds name it. */
  lemma ReusedIdStartsClean(db: Db, id: int)
    requires Valid(db) && id > 0 && Detachable(db.rules, id)
    ensures var after := Step(Step(db, DelInbound(id)), AddInbound(id));
      forall s <- after.rules :: Decode(s.inboundIds).Some? && id in Decode(s.inboundIds).value ==> s.applyToNew
  {
    DetachKeepsOthers(db, id, id + 1, 0);
    var gone := Step(db, DelInbound(id));
    var after := Step(gone, AddInbound(id));
    hide Valid, DetachAll, Detachable;
    forall s | s in after.rules && Decode(s.inboundIds).Some? && id in Decode(s.inboundIds).value
      ensures s.applyToNew
    {
      if Attachable(gone.rules) {
        var i :| 0 <= i < |after.rules| && after.rules[i] == s;
        assert gone.rules[i] in gone.rules;
      }
    }
  }

  /** After an accepted reordering the priorities are the positions in the list, and nothing else changed. */
  lemma ReorderPlaces(db: Db, ids: seq<int>)
    requires Valid(db) && NamesEach(db.rules, ids)
    ensures var after := Step(db, Reorder(ids));
      && |after.rules| == |db.rules|
      && (forall i :: 0 <= i < |db.rules| ==> after.rules[i] == db.rules[i].(priority := after.rules[i].priority))
      && (forall r <- after.rules :: 0 <= r.priority < |ids| && ids[r.priority] == r.id)
  {
    NoneLeftOut(IdsOf(db.rules), ids);
    var r := Ordered(db.rules, ids);
    hide Exclusive;
    forall i | 0 <= i < |r|
      ensures r[i] == db.rules[i].(priority := r[i].priority) && 0 <= r[i].priority < |ids| && ids[r[i].priority] == r[i].id
    {
      var id := IdsOf(db.rules)[i];
      assert id in IdsOf(db.rules);
      PositionFound(ids, id);
    }
  }

  lemma PositionFound(ids: seq<int>, id: int)
    ensures Position(ids, id) < |ids| <==> id in ids
  {
    assert ids[..|ids|] == ids;
  }

  /**
   The assumption on saved rules is needed: a rule that lists an inbound not yet there clashes as soon as that id is
   handed out.
   */
  lemma DanglingListClashes(taking: Rule, dangling: Rule)
    requires taking == Rule(1, "a", List([1]), List([1]), 0, Block, 0, 0, true, true)
    requires dangling == Rule(2, "b", List([5]), List([1]), 0, Block, 0, 0, false, true)
    ensures var start := Db({1}, {1}, {}, []);
      var db := Step(Step(start, AddRule(taking.(id := 0), 1)), AddRule(dangling.(id := 0), 2));
      && Valid(start) && db.rules == [taking, dangling]
      && !AtMostOne(Step(db, AddInbound(5)).rules)
  {
    var start := Db({1}, {1}, {}, []);
    FirstSaved(start, taking);
    SecondSaved(start.(rules := [taking]), taking, dangling);
    AttachedClash(start.(rules := [taking, dangling]), taking, dangling);
    hide AtMostOne, Exclusive, Step;
    assert Valid(start) by { NoRulesApart(); }
  }

  lemma NoRulesApart()
    ensures Exclusive([])
  {
  }

  lemma FirstSaved(start: Db, taking: Rule)
    requires taking == Rule(1, "a", List([1]), List([1]), 0, Block, 0, 0, true, true) && start == Db({1}, {1}, {}, [])
    ensures Step(start, AddRule(taking.(id := 0), 1)) == start.(rules := [taking])
  {
  }

  lemma AttachedClash(db: Db, taking: Rule, dangling: Rule)
    requires taking == Rule(1, "a", List([1]), List([1]), 0, Block, 0, 0, true, true)
    requires dangling == Rule(2, "b", List([5]), List([1]), 0, Block, 0, 0, false, true)
    requires db.rules == [taking, dangling]
    ensures !AtMostOne(Step(db, AddInbound(5)).rules)
  {
    CleanExact([1] + [5]);
    var attached := AttachAll(db.rules, 5);
    hide Clean;
    assert Step(db, AddInbound(5)).rules == attached;
    hide Step, AttachAll;
    assert Covers(attached[0], 5, 1) && Covers(attached[1], 5, 1);
  }

  lemma SecondSaved(db: Db, taking: Rule, dangling: Rule)
    requires taking == Rule(1, "a", List([1]), List([1]), 0, Block, 0, 0, true, true)
    requires dangling == Rule(2, "b", List([5]), List([1]), 0, Block, 0, 0, false, true)
    requires db == Db({1}, {1}, {}, [taking])
    ensures Step(db, AddRule(dangling.(id := 0), 2)) == db.(rules := [taking, dangling])
  {
    var rule := dangling.(id := 0);
    assert !Overlaps(rule, taking);
    assert ValidRule(db, rule) && Admissible(db.rules, rule);
    assert IndexOf([taking], 2) == 1;
  }

  /** An accepted update takes over all that the form has, the switch included, and keeps the rule's id and place. */
  lemma UpdateTakesForm(db: Db, rule: Rule)
    requires Valid(db) && AfterUpdate(db, rule).Some?
    ensures var after := AfterUpdate(db, rule).value;
      && |after.rules| == |db.rules|
      && forall i :: 0 <= i < |db.rules| ==>
           var r, old1 := after.rules[i], db.rules[i];
           if old1.id != rule.id then r == old1
           else
             && r.id == old1.id && r.priority == old1.priority && r.legacyGroupId == 0 && r.remark == rule.remark
             && r.inboundIds == rule.inboundIds && r.groupIds == rule.groupIds && r.action == rule.action
             && r.outboundId == rule.outboundId && r.applyToNew == rule.applyToNew && r.enable == rule.enable
  {
    hide Exclusive, Admissible, ValidRule;
  }
}
