/**
 Which routing rule covers which inbound: at most one rule per inbound and domain group, through every edit, through
 inbounds coming and going, and although ids are handed out again.
 */
module Coverage {
  import opened Collections

  // ----- id lists as stored

  /** A stored id list: nothing ("" or null), unreadable text, or a list. */
  datatype Column = Unset | Garbled | List(ids: seq<int>)

  function Decode(c: Column): Option<seq<int>> {
    match c
    case Unset => Some([])
    case Garbled => None
    case List(ids) => Some(ids)
  }

  function Insert(x: int, s: seq<int>): seq<int> {
    if s == [] || x <= s[0] then [x] + s else [s[0]] + Insert(x, s[1..])
  }

  /** Sorting is a library's; here by insertion. */
  function Sort(s: seq<int>): seq<int> {
    if s == [] then [] else Insert(s[|s| - 1], Sort(s[..|s| - 1]))
  }

  function Positives(ids: seq<int>): seq<int> {
    if ids == [] then []
    else
      var front, x := Positives(ids[..|ids| - 1]), ids[|ids| - 1];
      if x <= 0 || x in front then front else front + [x]
  }

  /** The positive ids, once each, ascending. */
  function Clean(ids: seq<int>): seq<int> {
    Sort(Positives(ids))
  }

  method EncodeIds(ids: seq<int>) returns (c: Column)
    ensures c == List(Clean(ids))
  {
    var seen: set<int> := {};
    var cleaned: seq<int> := [];
    for i := 0 to |ids|
      invariant cleaned == Positives(ids[..i]) && seen == set x | x in cleaned
    {
      assert ids[..i + 1][..i] == ids[..i];
      var id := ids[i];
      if id <= 0 || id in seen {
        continue;
      }
      seen := seen + {id};
      cleaned := cleaned + [id];
    }
    assert ids[..|ids|] == ids;
    return List(Sort(cleaned));
  }

  /** Refuses a non-empty list that would be stored as the empty one, which means everyone. */
  method EncodeInboundIdsStrict(ids: seq<int>) returns (r: Option<Column>)
    ensures r == if ids != [] && Clean(ids) == [] then None else Some(List(Clean(ids)))
  {
    var encoded := EncodeIds(ids);
    if |ids| > 0 && encoded == List([]) {
      return None;
    }
    return Some(encoded);
  }

  /** There is no empty list of groups at all. */
  method EncodeDomainGroupIdsStrict(ids: seq<int>) returns (r: Option<Column>)
    ensures r == if Clean(ids) == [] then None else Some(List(Clean(ids)))
  {
    var encoded := EncodeIds(ids);
    if encoded == List([]) {
      return None;
    }
    return Some(encoded);
  }

  predicate Ascending(s: seq<int>) {
    forall i, j :: 0 <= i < j < |s| ==> s[i] < s[j]
  }

  lemma {:induction false} InsertAscending(x: int, s: seq<int>)
    requires Ascending(s) && x !in s
    ensures Ascending(Insert(x, s)) && forall y :: y in Insert(x, s) <==> y == x || y in s
  {
    if s != [] {
      assert s == [s[0]] + s[1..];
      forall y | y in s[1..]
        ensures s[0] < y
      {
        var i :| 0 <= i < |s[1..]| && s[1..][i] == y;
        assert s[i + 1] == y;
      }
      if x > s[0] {
        InsertAscending(x, s[1..]);
        PrependAscending(s[0], Insert(x, s[1..]));
      } else {
        PrependAscending(x, s);
      }
    }
  }

  lemma PrependAscending(x: int, s: seq<int>)
    requires Ascending(s) && forall y <- s :: x < y
    ensures Ascending([x] + s)
  {
    assert forall j :: 0 <= j < |s| ==> s[j] in s;
  }

  lemma {:induction false} SortDistinct(s: seq<int>)
    requires forall i, j :: 0 <= i < j < |s| ==> s[i] != s[j]
    ensures Ascending(Sort(s)) && forall y :: y in Sort(s) <==> y in s
  {
    if s != [] {
      var front, x := s[..|s| - 1], s[|s| - 1];
      assert s == front + [x];
      SortDistinct(front);
      InsertAscending(x, Sort(front));
    }
  }

  lemma {:induction false} PositivesDistinct(ids: seq<int>)
    ensures forall i, j :: 0 <= i < j < |Positives(ids)| ==> Positives(ids)[i] != Positives(ids)[j]
    ensures forall y :: y in Positives(ids) <==> y in ids && y > 0
  {
    if ids != [] {
      PositivesDistinct(ids[..|ids| - 1]);
      assert ids == ids[..|ids| - 1] + [ids[|ids| - 1]];
    }
  }

  /** What is stored are exactly the positive ids, ascending and without repetition. */
  lemma CleanExact(ids: seq<int>)
    ensures Ascending(Clean(ids)) && forall y :: y in Clean(ids) <==> y in ids && y > 0
  {
    PositivesDistinct(ids);
    SortDistinct(Positives(ids));
  }

  lemma EmptyOrHas(t: seq<int>)
    ensures t == [] || exists y :: y in t
  {
    if t != [] {
      var y := t[0];
      assert y in t;
    }
  }

  lemma {:induction false} AscendingUnique(s: seq<int>, t: seq<int>)
    requires Ascending(s) && Ascending(t) && forall y :: y in s <==> y in t
    ensures s == t
  {
    EmptyOrHas(s);
    EmptyOrHas(t);
    if s != [] {
      assert s[0] in s;
      assert t != [] && t[0] in t;
      var i :| 0 <= i < |t| && t[i] == s[0];
      var j :| 0 <= j < |s| && s[j] == t[0];
      assert s[0] == t[0];
      forall y
        ensures y in s[1..] <==> y in t[1..]
      {
        assert y in s <==> y == s[0] || y in s[1..];
        assert y in t <==> y == t[0] || y in t[1..];
        assert s[0] !in s[1..] && t[0] !in t[1..];
      }
      AscendingUnique(s[1..], t[1..]);
    }
  }

  /** The stored form is canonical: it depends only on which positive ids are listed. */
  lemma EncodingCanonical(xs: seq<int>, ys: seq<int>)
    ensures Clean(xs) == Clean(ys) <==> forall y :: y > 0 ==> (y in xs <==> y in ys)
  {
    CleanExact(xs);
    CleanExact(ys);
    if forall y :: y > 0 ==> (y in xs <==> y in ys) {
      AscendingUnique(Clean(xs), Clean(ys));
    }
    hide Clean;
  }

  // ----- rules

  datatype Action = Block | Direct | Proxy | OtherAction

  datatype Rule = Rule(
    id: int, remark: string, inboundIds: Column, groupIds: Column, legacyGroupId: int, action: Action, outboundId: int,
    priority: int, applyToNew: bool, enable: bool)

  datatype Db = Db(inbounds: set<int>, groups: set<int>, outbounds: set<int>, rules: seq<Rule>)

  /** The empty list of inbounds is everyone. */
  predicate InboundsMeet(a: seq<int>, b: seq<int>) {
    a == [] || b == [] || exists x <- a :: x in b
  }

  predicate GroupsMeet(a: seq<int>, b: seq<int>) {
    exists x <- a :: x in b
  }

  method IntersectInbounds(a: seq<int>, b: seq<int>) returns (meet: bool, who: int)
    ensures meet <==> InboundsMeet(a, b)
    ensures a == [] || b == [] || !meet ==> who == 0
    ensures a != [] && b != [] && meet ==> who in a && who in b
    ensures a != [] && b != [] && meet && Ascending(b) ==> forall x <- a :: x in b ==> who <= x
  {
    if |a| == 0 || |b| == 0 {
      return true, 0;
    }
    var wanted := set x | x in a;
    for i := 0 to |b|
      invariant forall j :: 0 <= j < i ==> b[j] !in a
    {
      if b[i] in wanted {
        return true, b[i];
      }
    }
    return false, 0;
  }

  method IntersectGroups(a: seq<int>, b: seq<int>) returns (meet: bool, which: int)
    ensures meet <==> GroupsMeet(a, b)
    ensures if meet then which in a && which in b else which == 0
  {
    if |a| == 0 || |b| == 0 {
      return false, 0;
    }
    var wanted := set x | x in a;
    for i := 0 to |b|
      invariant forall j :: 0 <= j < i ==> b[j] !in a
    {
      if b[i] in wanted {
        return true, b[i];
      }
    }
    return false, 0;
  }

  predicate SharesGroup(r: Rule, s: Rule) {
    Decode(r.groupIds).Some? && Decode(s.groupIds).Some? && GroupsMeet(Decode(r.groupIds).value, Decode(s.groupIds).value)
  }

  predicate Overlaps(r: Rule, s: Rule) {
    Decode(r.inboundIds).Some? && Decode(s.inboundIds).Some? && InboundsMeet(Decode(r.inboundIds).value, Decode(s.inboundIds).value)
  }

  /** Two rules of a common group that cover a common inbound, or would both take in the next new one. */
  predicate Clash(r: Rule, s: Rule) {
    SharesGroup(r, s) && ((r.applyToNew && s.applyToNew) || Overlaps(r, s))
  }

  predicate Admissible(rules: seq<Rule>, rule: Rule) {
    && Decode(rule.inboundIds).Some? && Decode(rule.groupIds).Some?
    && forall s <- rules :: s.id != rule.id ==> !Clash(rule, s)
  }

  predicate Exclusive(rules: seq<Rule>) {
    forall i, j :: 0 <= i < j < |rules| ==> !Clash(rules[i], rules[j])
  }

  predicate UniqueIds(rules: seq<Rule>) {
    forall i, j :: 0 <= i < j < |rules| ==> rules[i].id != rules[j].id
  }

  /** A rule takes part for an inbound and a group when both lists are readable and hold them. */
  predicate Covers(r: Rule, inbound: int, group: int) {
    && Decode(r.inboundIds).Some? && Decode(r.groupIds).Some?
    && (Decode(r.inboundIds).value == [] || inbound in Decode(r.inboundIds).value)
    && group in Decode(r.groupIds).value
  }

  ghost predicate AtMostOne(rules: seq<Rule>) {
    forall i, j, inbound, group ::
      0 <= i < j < |rules| ==> !(Covers(rules[i], inbound, group) && Covers(rules[j], inbound, group))
  }

  lemma CommonCover(r: Rule, s: Rule)
    ensures SharesGroup(r, s) && Overlaps(r, s) <==>
      exists inbound, group :: Covers(r, inbound, group) && Covers(s, inbound, group)
  {
    if SharesGroup(r, s) && Overlaps(r, s) {
      var a, b := Decode(r.inboundIds).value, Decode(s.inboundIds).value;
      var group :| group in Decode(r.groupIds).value && group in Decode(s.groupIds).value;
      if a != [] && b != [] {
        var x :| x in a && x in b;
        assert Covers(r, x, group) && Covers(s, x, group);
      } else {
        var x := if a != [] then a[0] else if b != [] then b[0] else 1;
        assert Covers(r, x, group) && Covers(s, x, group);
      }
    }
  }

  /** The pairwise check is the invariant: no clash means no inbound is covered twice in a group. */
  lemma ExclusiveMeansOne(rules: seq<Rule>)
    ensures AtMostOne(rules) <==> forall i, j :: 0 <= i < j < |rules| ==> !(SharesGroup(rules[i], rules[j]) && Overlaps(rules[i], rules[j]))
    ensures Exclusive(rules) ==> AtMostOne(rules)
  {
    forall i, j | 0 <= i < j < |rules|
      ensures SharesGroup(rules[i], rules[j]) && Overlaps(rules[i], rules[j]) <==>
        exists inbound, group :: Covers(rules[i], inbound, group) && Covers(rules[j], inbound, group)
    {
      CommonCover(rules[i], rules[j]);
    }
    hide Covers, SharesGroup, Overlaps;
  }

  // ----- new inbounds

  function AttachOne(r: Rule, id: int): Rule {
    if r.applyToNew && Decode(r.inboundIds).Some? && Decode(r.inboundIds).value != []
    then r.(inboundIds := List(Clean(Decode(r.inboundIds).value + [id]))) else r
  }

  function AttachAll(rules: seq<Rule>, id: int): (r: seq<Rule>)
    ensures |r| == |rules| && forall i :: 0 <= i < |r| ==> r[i] == AttachOne(rules[i], id)
  {
    seq(|rules|, i requires 0 <= i < |rules| => AttachOne(rules[i], id))
  }

  /** Only the rules that take in new inbounds are read. */
  predicate Attachable(rules: seq<Rule>) {
    forall r <- rules :: r.applyToNew ==> Decode(r.inboundIds).Some?
  }

  /** The first rule would take in the id, and the second lists it already. */
  predicate Claims(r: Rule, s: Rule, id: int) {
    && r.applyToNew && SharesGroup(r, s) && Decode(r.inboundIds).Some? && Decode(s.inboundIds).Some?
    && Decode(r.inboundIds).value != [] && id in Decode(s.inboundIds).value
  }

  predicate NoStaleClaim(rules: seq<Rule>, id: int) {
    forall i, j :: 0 <= i < |rules| && 0 <= j < |rules| && i != j ==> !Claims(rules[i], rules[j], id)
  }

  lemma AttachPair(r: Rule, s: Rule, id: int)
    requires id > 0 && !Clash(r, s)
    ensures Clash(AttachOne(r, id), AttachOne(s, id)) <==> Claims(r, s, id) || Claims(s, r, id)
  {
    if SharesGroup(r, s) && Decode(r.inboundIds).Some? && Decode(s.inboundIds).Some? {
      var a, b := Decode(r.inboundIds).value, Decode(s.inboundIds).value;
      CleanExact(a + [id]);
      CleanExact(b + [id]);
      hide Clean;
      assert id in Clean(a + [id]) && id in Clean(b + [id]);
    }
  }

  /** Taking a new inbound in keeps the rules apart exactly when no other rule of such a group lists the id already. */
  lemma AttachKeepsExclusive(rules: seq<Rule>, id: int)
    requires id > 0 && Exclusive(rules)
    ensures Exclusive(AttachAll(rules, id)) <==> NoStaleClaim(rules, id)
  {
    var r := AttachAll(rules, id);
    forall i, j | 0 <= i < j < |rules|
      ensures Clash(r[i], r[j]) <==> Claims(rules[i], rules[j], id) || Claims(rules[j], rules[i], id)
    {
      AttachPair(rules[i], rules[j], id);
    }
    hide Clash, Claims;
  }

  // ----- inbounds that go

  function Without(ids: seq<int>, id: int): (r: seq<int>)
    ensures forall x :: x in r <==> x in ids && x != id
  {
    if ids == [] then []
    else
      var front, x := ids[..|ids| - 1], ids[|ids| - 1];
      assert ids == front + [x];
      Without(front, id) + if x == id then [] else [x]
  }

  /** A rule that names only this inbound goes with it; one that names others keeps the others; everyone stays everyone. */
  function DetachOne(r: Rule, id: int): seq<Rule>
    requires Decode(r.inboundIds).Some?
  {
    var ids := Decode(r.inboundIds).value;
    if id !in ids then [r]
    else if Without(ids, id) == [] then []
    else [r.(inboundIds := List(Clean(Without(ids, id))))]
  }

  function DetachAll(rules: seq<Rule>, id: int): seq<Rule>
    requires Readable(rules)
  {
    if rules == [] then []
    else
      assert rules[|rules| - 1] in rules;
      DetachAll(rules[..|rules| - 1], id) + DetachOne(rules[|rules| - 1], id)
  }

  predicate Readable(rules: seq<Rule>) {
    forall r <- rules :: Decode(r.inboundIds).Some?
  }

  /** What would remain of a rule is storable: not only ids that are no ids. */
  predicate Detachable(rules: seq<Rule>, id: int) {
    Readable(rules) && (id > 0 ==> forall r <- rules :: Storable(r, id))
  }

  predicate Storable(r: Rule, id: int)
    requires Decode(r.inboundIds).Some?
  {
    var ids := Decode(r.inboundIds).value;
    id in ids && Without(ids, id) != [] ==> Clean(Without(ids, id)) != []
  }

  // ----- the state and what every step keeps

  /** Every id a rule refers to belongs to something that exists. */
  predicate RefsLive(db: Db, r: Rule) {
    && (Decode(r.inboundIds).Some? ==> forall x <- Decode(r.inboundIds).value :: x in db.inbounds)
    && (Decode(r.groupIds).Some? ==> forall x <- Decode(r.groupIds).value :: x in db.groups)
    && (r.action == Proxy ==> r.outboundId in db.outbounds)
  }

  predicate Valid(db: Db) {
    && UniqueIds(db.rules) && Exclusive(db.rules)
    && (forall r <- db.rules :: r.id != 0 && RefsLive(db, r))
    && (forall x <- db.inbounds :: x > 0) && (forall x <- db.groups :: x > 0) && (forall x <- db.outbounds :: x > 0)
  }

  /**
   Attaching a new inbound: a scoped rule that takes in new ones covers it from then on, everyone rules did already, and
   for every other inbound nothing changes.
   */
  lemma AttachCovers(r: Rule, id: int, inbound: int, group: int)
    requires id > 0 && inbound > 0 && Decode(r.inboundIds).Some?
    ensures Covers(AttachOne(r, id), id, group) <==>
      Decode(r.groupIds).Some? && group in Decode(r.groupIds).value && (r.applyToNew || Covers(r, id, group))
    ensures inbound != id ==> (Covers(AttachOne(r, id), inbound, group) <==> Covers(r, inbound, group))
  {
    var ids := Decode(r.inboundIds).value;
    CleanExact(ids + [id]);
    hide Clean;
    assert id in ids + [id];
    EmptyOrHas(ids);
  }
}
