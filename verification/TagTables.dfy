/** Tables of tagged inbounds and outbounds, and the removals and additions that turn one table into another. */
module TagTables {
  import opened Collections
  import opened Json

  datatype InboundConfig = InboundConfig(
    listen: string, port: int, protocol: string, settings: string, streamSettings: string, tag: string, sniffing: string)

  datatype Body = In(config: InboundConfig) | Out(json: Json)

  datatype Item = Item(tag: string, body: Body)

  function ByTag(items: seq<Item>): map<string, Body> {
    if items == [] then map[] else ByTag(items[..|items| - 1])[items[|items| - 1].tag := items[|items| - 1].body]
  }

  predicate UniqueTags(items: seq<Item>) {
    forall i, j :: 0 <= i < j < |items| ==> items[i].tag != items[j].tag
  }

  predicate Kept(x: Item, target: map<string, Body>) {
    x.tag in target && target[x.tag] == x.body
  }

  function Removed(before: seq<Item>, target: map<string, Body>): seq<string> {
    if before == [] then []
    else
      var x := before[|before| - 1];
      Removed(before[..|before| - 1], target) + if Kept(x, target) then [] else [x.tag]
  }

  /** Changed things come back with their new body. */
  function Replaced(before: seq<Item>, target: map<string, Body>): seq<Item> {
    if before == [] then []
    else
      var x := before[|before| - 1];
      Replaced(before[..|before| - 1], target) +
      if !Kept(x, target) && x.tag in target then [Item(x.tag, target[x.tag])] else []
  }

  function Fresh(after: seq<Item>, source: map<string, Body>): seq<Item> {
    if after == [] then []
    else
      var x := after[|after| - 1];
      Fresh(after[..|after| - 1], source) + if x.tag in source then [] else [x]
  }

  /** Removing fails on an unknown tag. */
  function RemoveAll(m: map<string, Body>, tags: seq<string>): Option<map<string, Body>> {
    if tags == [] then Some(m)
    else
      var t := tags[|tags| - 1];
      match RemoveAll(m, tags[..|tags| - 1])
      case Some(r) => if t in r then Some(r - {t}) else None
      case None => None
  }

  /** Adding fails on a tag in use. */
  function InsertAll(m: map<string, Body>, items: seq<Item>): Option<map<string, Body>> {
    if items == [] then Some(m)
    else
      var x := items[|items| - 1];
      match InsertAll(m, items[..|items| - 1])
      case Some(r) => if x.tag in r then None else Some(r[x.tag := x.body])
      case None => None
  }

  function Swap(m: map<string, Body>, tags: seq<string>, items: seq<Item>): Option<map<string, Body>> {
    match RemoveAll(m, tags)
    case Some(r) => InsertAll(r, items)
    case None => None
  }

  lemma {:induction false} ByTagHas(items: seq<Item>, i: nat)
    requires UniqueTags(items) && i < |items|
    ensures items[i].tag in ByTag(items) && ByTag(items)[items[i].tag] == items[i].body
  {
    if i < |items| - 1 {
      ByTagHas(items[..|items| - 1], i);
    }
  }

  lemma {:induction false} ByTagOnly(items: seq<Item>, tag: string) returns (i: nat)
    requires tag in ByTag(items)
    ensures i < |items| && items[i] == Item(tag, ByTag(items)[tag])
  {
    i := |items| - 1;
    if items[i].tag != tag {
      i := ByTagOnly(items[..|items| - 1], tag);
    }
  }

  lemma {:induction false} ByTagKeys(items: seq<Item>, i: nat)
    requires i < |items|
    ensures items[i].tag in ByTag(items)
  {
    if i < |items| - 1 {
      ByTagKeys(items[..|items| - 1], i);
    }
  }

  predicate Distinct(tags: seq<string>) {
    forall i, j :: 0 <= i < j < |tags| ==> tags[i] != tags[j]
  }

  lemma SnocDistinct(tags: seq<string>, t: string)
    requires Distinct(tags) && t !in tags
    ensures Distinct(tags + [t])
  {
  }

  lemma SnocUnique(items: seq<Item>, x: Item)
    requires UniqueTags(items) && forall y <- items :: y.tag != x.tag
    ensures UniqueTags(items + [x])
  {
  }

  lemma FrontUnique(items: seq<Item>)
    requires items != [] && UniqueTags(items)
    ensures var front, x := items[..|items| - 1], items[|items| - 1];
      items == front + [x] && UniqueTags(front) && forall y <- front :: y.tag != x.tag
  {
    var front, x := items[..|items| - 1], items[|items| - 1];
    forall y | y in front
      ensures y.tag != x.tag
    {
      var i :| 0 <= i < |front| && front[i] == y;
      assert items[i] == y;
    }
  }

  lemma RemoveOneMore(m: map<string, Body>, gone: set<string>, t: string)
    ensures m - (gone + {t}) == m - gone - {t}
  {
  }

  lemma InsertOneMore(m: map<string, Body>, more: map<string, Body>, x: Item)
    ensures m + more[x.tag := x.body] == (m + more)[x.tag := x.body]
  {
  }

  lemma {:induction false} RemoveAllReaches(m: map<string, Body>, tags: seq<string>)
    requires (forall t <- tags :: t in m) && Distinct(tags)
    ensures RemoveAll(m, tags) == Some(m - set t | t in tags)
  {
    if tags == [] {
      assert m - (set t | t in tags) == m;
    } else {
      var front, t := tags[..|tags| - 1], tags[|tags| - 1];
      assert tags == front + [t];
      RemoveAllReaches(m, front);
      var gone := set x | x in front;
      assert (set x | x in tags) == gone + {t};
      RemoveOneMore(m, gone, t);
    }
  }

  lemma {:induction false} InsertAllReaches(m: map<string, Body>, items: seq<Item>)
    requires UniqueTags(items) && forall x <- items :: x.tag !in m
    ensures InsertAll(m, items) == Some(m + ByTag(items))
  {
    if items == [] {
      assert m + ByTag(items) == m;
    } else {
      var front, x := items[..|items| - 1], items[|items| - 1];
      FrontUnique(items);
      InsertAllReaches(m, front);
      assert x.tag !in ByTag(front) by { TablesAgree(front); }
      InsertOneMore(m, ByTag(front), x);
    }
  }

  ghost predicate Changed(before: seq<Item>, target: map<string, Body>, tag: string) {
    exists x <- before :: x.tag == tag && !Kept(x, target)
  }

  lemma ChangedSnoc(front: seq<Item>, x: Item, target: map<string, Body>, tag: string)
    ensures Changed(front + [x], target, tag) <==> Changed(front, target, tag) || (x.tag == tag && !Kept(x, target))
  {
    assert forall y :: y in front + [x] <==> y in front || y == x;
  }

  lemma {:induction false} RemovedTags(before: seq<Item>, target: map<string, Body>)
    requires UniqueTags(before)
    ensures Distinct(Removed(before, target))
    ensures forall t :: t in Removed(before, target) <==> Changed(before, target, t)
  {
    if before != [] {
      var front, x := before[..|before| - 1], before[|before| - 1];
      FrontUnique(before);
      RemovedTags(front, target);
      forall t {
        ChangedSnoc(front, x, target, t);
      }
      if !Kept(x, target) {
        SnocDistinct(Removed(front, target), x.tag);
      }
    }
  }

  lemma {:induction false} ReplacedItems(before: seq<Item>, target: map<string, Body>)
    requires UniqueTags(before)
    ensures UniqueTags(Replaced(before, target))
    ensures forall y :: y in Replaced(before, target) <==>
      y.tag in target && target[y.tag] == y.body && Changed(before, target, y.tag)
  {
    if before != [] {
      var front, x := before[..|before| - 1], before[|before| - 1];
      FrontUnique(before);
      ReplacedItems(front, target);
      forall t {
        ChangedSnoc(front, x, target, t);
      }
      if !Kept(x, target) && x.tag in target {
        forall y | y in Replaced(front, target)
          ensures y.tag != x.tag
        {
          assert Changed(front, target, y.tag);
        }
        SnocUnique(Replaced(front, target), Item(x.tag, target[x.tag]));
      }
    }
  }

  lemma {:induction false} FreshItems(after: seq<Item>, source: map<string, Body>)
    requires UniqueTags(after)
    ensures UniqueTags(Fresh(after, source))
    ensures forall y :: y in Fresh(after, source) <==> y in after && y.tag !in source
  {
    if after != [] {
      var front, x := after[..|after| - 1], after[|after| - 1];
      FrontUnique(after);
      FreshItems(front, source);
      if x.tag !in source {
        forall y | y in Fresh(front, source)
          ensures y.tag != x.tag
        {
          assert y in front;
        }
        SnocUnique(Fresh(front, source), x);
      }
    }
  }

  /** Removing what changed or went and adding what changed or came turns one table into the other. */
  lemma SwapReaches(before: seq<Item>, after: seq<Item>)
    requires UniqueTags(before) && UniqueTags(after)
    ensures Swap(ByTag(before), Removed(before, ByTag(after)), Replaced(before, ByTag(after)) + Fresh(after, ByTag(before)))
         == Some(ByTag(after))
  {
    var source, target := ByTag(before), ByTag(after);
    var tags, back, come := Removed(before, target), Replaced(before, target), Fresh(after, source);
    RemovedTags(before, target);
    ChangedTags(before, target);
    hide Removed, Replaced, Fresh, ByTag, RemoveAll, InsertAll, Distinct, Changed, Kept, UniqueTags;
    assert forall t <- tags :: t in source;
    RemoveAllReaches(source, tags);
    var left := source - set t | t in tags;
    AddedItems(before, after, left);
    InsertAllReaches(left, back + come);
    SameTable(before, after, left, back + come);
  }

  /** The changed tags are the table entries the target does not hold. */
  lemma ChangedTags(before: seq<Item>, target: map<string, Body>)
    requires UniqueTags(before)
    ensures forall t :: Changed(before, target, t) <==> t in ByTag(before) && !Kept(Item(t, ByTag(before)[t]), target)
  {
    TablesAgree(before);
    hide ByTag, Kept, UniqueTags;
    var source := ByTag(before);
    forall t
      ensures Changed(before, target, t) <==> t in source && !Kept(Item(t, source[t]), target)
    {
      if t in source {
        assert Item(t, source[t]) in before;
      }
    }
  }

  lemma AddedItems(before: seq<Item>, after: seq<Item>, left: map<string, Body>)
    requires UniqueTags(before) && UniqueTags(after)
    requires forall t :: t in left <==> t in ByTag(before) && Kept(Item(t, ByTag(before)[t]), ByTag(after))
    ensures var added := Replaced(before, ByTag(after)) + Fresh(after, ByTag(before));
      && UniqueTags(added)
      && (forall y <- added :: y.tag !in left)
      && (forall y :: y in added <==> y in after && y.tag !in left)
  {
    var source, target := ByTag(before), ByTag(after);
    TablesAgree(after);
    ChangedTags(before, target);
    ReplacedItems(before, target);
    FreshItems(after, source);
    hide ByTag, Changed, UniqueTags, Replaced, Fresh;
    JoinUnique(Replaced(before, target), Fresh(after, source));
  }

  lemma JoinUnique(xs: seq<Item>, ys: seq<Item>)
    requires UniqueTags(xs) && UniqueTags(ys) && forall x <- xs, y <- ys :: x.tag != y.tag
    ensures UniqueTags(xs + ys)
  {
  }

  lemma TablesAgree(items: seq<Item>)
    requires UniqueTags(items)
    ensures forall x :: x in items <==> x.tag in ByTag(items) && ByTag(items)[x.tag] == x.body
    ensures forall t :: t in ByTag(items) ==> Item(t, ByTag(items)[t]) in items
  {
    forall x | x in items
      ensures x.tag in ByTag(items) && ByTag(items)[x.tag] == x.body
    {
      var i :| 0 <= i < |items| && items[i] == x;
      ByTagHas(items, i);
    }
    forall t | t in ByTag(items)
      ensures Item(t, ByTag(items)[t]) in items
    {
      var i := ByTagOnly(items, t);
    }
  }

  lemma SameTable(before: seq<Item>, after: seq<Item>, left: map<string, Body>, added: seq<Item>)
    requires UniqueTags(after) && UniqueTags(added)
    requires forall t :: t in left <==> t in ByTag(before) && Kept(Item(t, ByTag(before)[t]), ByTag(after))
    requires forall t :: t in left ==> left[t] == ByTag(before)[t]
    requires forall y :: y in added <==> y in after && y.tag !in left
    ensures left + ByTag(added) == ByTag(after)
  {
    TablesAgree(after);
    TablesAgree(added);
    hide ByTag, UniqueTags;
    var target, extra := ByTag(after), ByTag(added);
    forall t
      ensures t in target <==> t in left || t in extra
      ensures t in extra ==> t !in left && t in target && extra[t] == target[t]
    {
      if t in target && t !in left {
        assert Item(t, target[t]) in after;
        assert Item(t, target[t]) in added;
      }
      if t in extra {
        assert Item(t, extra[t]) in added;
      }
    }
    assert forall t :: t in left ==> t in target && left[t] == target[t];
    JoinedTable(left, extra, target);
  }

  lemma JoinedTable(left: map<string, Body>, extra: map<string, Body>, target: map<string, Body>)
    requires forall t :: t in target <==> t in left || t in extra
    requires forall t :: t in extra ==> t !in left && t in target && extra[t] == target[t]
    requires forall t :: t in left ==> t in target && left[t] == target[t]
    ensures left + extra == target
  {
    assert (left + extra).Keys == target.Keys;
  }
}
