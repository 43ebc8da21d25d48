/** One round of sampling: the drained bytes become observations, the observations writes, the writes rows. */
module SharingSample {
  import opened Collections
  import opened Sharing
  import Online

  datatype Inbound = Inbound(id: int, port: int, enable: bool)

  /** A source as listed online. */
  datatype Listed = Listed(ip: Online.Address, idle: bool, blocked: bool)

  predicate Observable(e: Listed) {
    !e.idle && !e.blocked
  }

  /** The online list per port, and the network a source belongs to. */
  datatype View = View(online: int -> seq<Listed>, metaOf: Online.Address -> Meta)

  /** A source is listed once per port. */
  predicate ListsOnce(list: seq<Listed>) {
    forall i, j :: 0 <= i < j < |list| ==> list[i].ip != list[j].ip
  }

  predicate IsActive(list: seq<Listed>, ip: Online.Address) {
    exists e <- list :: e.ip == ip && Observable(e)
  }

  /** What an observation of a source must say, given the bytes drained for it. */
  predicate Matches(o: Observation, x: Inbound, drained: map<Online.Key, Online.Bytes>, view: View) {
    var b := Online.Get(drained, Online.Key(x.port, o.key.ip));
    && o.key.inbound == x.id && o.up == b.up && o.down == b.down && o.meta == view.metaOf(o.key.ip)
    && (o.bytesOnly <==> !IsActive(view.online(x.port), o.key.ip))
    && (o.bytesOnly ==> Online.Key(x.port, o.key.ip) in drained)
  }

  predicate DistinctKeys(obs: seq<Observation>) {
    forall i, j :: 0 <= i < j < |obs| ==> obs[i].key != obs[j].key
  }

  /** Every drained source and every active one of an inbound is observed. */
  ghost predicate Complete(obs: seq<Observation>, x: Inbound, drained: map<Online.Key, Online.Bytes>, view: View) {
    && (forall k <- drained :: k.port == x.port ==> exists o <- obs :: o.key == Key(x.id, k.ip))
    && (forall e <- view.online(x.port) :: Observable(e) ==> exists o <- obs :: o.key == Key(x.id, e.ip))
  }

  /** The active sources of one inbound, with the bytes taken out of the drained ones. */
  method CollectActive(x: Inbound, drained: map<Online.Key, Online.Bytes>, view: View)
    returns (obs: seq<Observation>, left: map<Online.Key, Online.Bytes>)
    requires ListsOnce(view.online(x.port))
    ensures DistinctKeys(obs) && forall o <- obs :: Matches(o, x, drained, view) && !o.bytesOnly
    ensures forall e <- view.online(x.port) :: Observable(e) ==> exists o <- obs :: o.key == Key(x.id, e.ip)
    ensures left == drained - set o | o in obs :: Online.Key(x.port, o.key.ip)
  {
    var list := view.online(x.port);
    obs, left := [], drained;
    for i := 0 to |list|
      invariant DistinctKeys(obs) && forall o <- obs :: Matches(o, x, drained, view) && !o.bytesOnly
      invariant forall o <- obs :: exists j :: 0 <= j < i && list[j].ip == o.key.ip
      invariant forall j :: 0 <= j < i && Observable(list[j]) ==> exists o <- obs :: o.key == Key(x.id, list[j].ip)
      invariant left == drained - set o | o in obs :: Online.Key(x.port, o.key.ip)
    {
      var e := list[i];
      if e.idle || e.blocked {
        continue;
      }
      var key := Online.Key(x.port, e.ip);
      var d := if key in left then left[key] else Online.Bytes(0, 0);
      var o := Observation(Key(x.id, e.ip), view.metaOf(e.ip), d.up, d.down, false);
      assert e in list;
      NewKey(obs, o);
      left := left - {key};
      obs := obs + [o];
    }
  }

  lemma NewKey(obs: seq<Observation>, o: Observation)
    requires DistinctKeys(obs) && forall p <- obs :: p.key != o.key
    ensures DistinctKeys(obs + [o]) && forall p :: p in obs + [o] <==> p in obs || p == o
  {
  }

  /** The sources that are not active but have bytes. */
  method CollectRest(x: Inbound, drained: map<Online.Key, Online.Bytes>, left: map<Online.Key, Online.Bytes>, view: View,
                     active: seq<Observation>) returns (obs: seq<Observation>)
    requires DistinctKeys(active) && forall o <- active :: Matches(o, x, drained, view) && !o.bytesOnly
    requires forall e <- view.online(x.port) :: Observable(e) ==> exists o <- active :: o.key == Key(x.id, e.ip)
    requires left == drained - set o | o in active :: Online.Key(x.port, o.key.ip)
    ensures DistinctKeys(obs) && forall o <- obs :: Matches(o, x, drained, view)
    ensures Complete(obs, x, drained, view)
  {
    obs := active;
    var rest := set k | k in left && k.port == x.port;
    while rest != {}
      invariant DistinctKeys(obs) && forall o <- obs :: Matches(o, x, drained, view)
      invariant forall k <- rest :: k in left && k.port == x.port
      invariant forall o <- obs :: Online.Key(x.port, o.key.ip) !in rest
      invariant forall o <- active :: o in obs
      invariant forall k <- left :: k.port == x.port ==> k in rest || exists o <- obs :: o.key == Key(x.id, k.ip)
      decreases |rest|
    {
      assert Element(rest) in rest;
      var key :| key in rest;
      var d := left[key];
      var o := Observation(Key(x.id, key.ip), view.metaOf(key.ip), d.up, d.down, true);
      NotActive(x, left, view, active, key);
      NewKey(obs, o);
      obs := obs + [o];
      rest := rest - {key};
    }
    forall k | k in drained && k.port == x.port
      ensures exists o <- obs :: o.key == Key(x.id, k.ip)
    {
      if k !in left {
        var o :| o in active && Online.Key(x.port, o.key.ip) == k;
        assert o in obs && o.key == Key(x.id, k.ip);
      }
    }
  }

  lemma NotActive(x: Inbound, left: map<Online.Key, Online.Bytes>, view: View, active: seq<Observation>, key: Online.Key)
    requires key in left && key.port == x.port
    requires forall o <- active :: Online.Key(x.port, o.key.ip) !in left
    requires forall e <- view.online(x.port) :: Observable(e) ==> exists o <- active :: o.key == Key(x.id, e.ip)
    ensures !IsActive(view.online(x.port), key.ip)
  {
    forall e | e in view.online(x.port) && Observable(e)
      ensures e.ip != key.ip
    {
      var o :| o in active && o.key == Key(x.id, e.ip);
      assert Online.Key(x.port, e.ip) !in left;
    }
  }

  lemma SamePort(o: Observation, x: Inbound, left: map<Online.Key, Online.Bytes>, drained: map<Online.Key, Online.Bytes>, view: View)
    requires Matches(o, x, left, view)
    requires forall k: Online.Key :: k.port == x.port ==> (k in left <==> k in drained)
    requires forall k :: k in left ==> k in drained && left[k] == drained[k]
    ensures Matches(o, x, drained, view) && o.key.inbound == x.id
  {
  }

  lemma MoreComplete(obs: seq<Observation>, x: Inbound, left: map<Online.Key, Online.Bytes>, drained: map<Online.Key, Online.Bytes>, view: View)
    requires Complete(obs, x, left, view) && forall k: Online.Key :: k.port == x.port ==> (k in left <==> k in drained)
    ensures Complete(obs, x, drained, view)
  {
  }

  lemma StillComplete(obs: seq<Observation>, more: seq<Observation>, x: Inbound, drained: map<Online.Key, Online.Bytes>, view: View)
    requires Complete(obs, x, drained, view)
    ensures Complete(obs + more, x, drained, view) && Complete(more + obs, x, drained, view)
  {
    assert forall o :: o in obs ==> o in obs + more && o in more + obs;
  }

  /** Observations of different inbounds are of different sources. */
  lemma KeysApart(obs: seq<Observation>, mine: seq<Observation>, id: int)
    requires DistinctKeys(obs) && DistinctKeys(mine)
    requires (forall o <- obs :: o.key.inbound != id) && forall o <- mine :: o.key.inbound == id
    ensures DistinctKeys(obs + mine)
  {
  }

  /** Nothing is taken out but the bytes of the inbounds already visited. */
  ghost predicate Remaining(inbounds: seq<Inbound>, i: nat, left: map<Online.Key, Online.Bytes>, drained: map<Online.Key, Online.Bytes>)
    requires i <= |inbounds|
  {
    && (forall k :: k in left ==> k in drained && left[k] == drained[k])
    && (forall k <- drained :: (forall j :: 0 <= j < i ==> inbounds[j].port != k.port) ==> k in left)
  }

  lemma StillRemain(inbounds: seq<Inbound>, i: nat, left: map<Online.Key, Online.Bytes>, drained: map<Online.Key, Online.Bytes>)
    requires i < |inbounds| && Remaining(inbounds, i, left, drained)
    ensures Remaining(inbounds, i + 1, left, drained)
  {
  }

  lemma OwnRemain(inbounds: seq<Inbound>, i: nat, left: map<Online.Key, Online.Bytes>, rest: map<Online.Key, Online.Bytes>,
                  drained: map<Online.Key, Online.Bytes>, active: seq<Observation>)
    requires i < |inbounds| && Remaining(inbounds, i, left, drained)
    requires forall j :: 0 <= j < i ==> inbounds[j].port != inbounds[i].port
    requires rest == left - set o | o in active :: Online.Key(inbounds[i].port, o.key.ip)
    ensures Remaining(inbounds, i + 1, rest, drained)
    ensures forall k: Online.Key :: k.port == inbounds[i].port ==> (k in left <==> k in drained)
    ensures forall k :: k in left ==> k in drained && left[k] == drained[k]
  {
    forall k | k in drained && forall j :: 0 <= j < i + 1 ==> inbounds[j].port != k.port
      ensures k in rest
    {
      assert inbounds[i].port != k.port;
    }
  }

  /**
   All enabled inbounds in turn. Every drained source of an enabled inbound is in exactly one observation, with all its
   bytes, and no observation holds bytes that were not drained for it.
   */
  method CollectSharingObservations(drained: map<Online.Key, Online.Bytes>, inbounds: seq<Inbound>, view: View)
    returns (obs: seq<Observation>)
    requires forall i, j :: 0 <= i < j < |inbounds| ==> inbounds[i].id != inbounds[j].id && inbounds[i].port != inbounds[j].port
    requires forall x <- inbounds :: ListsOnce(view.online(x.port))
    ensures DistinctKeys(obs)
    ensures forall o <- obs :: exists x <- inbounds :: x.enable && Matches(o, x, drained, view)
    ensures forall x <- inbounds :: x.enable ==> Complete(obs, x, drained, view)
  {
    obs := [];
    var left := drained;
    for i := 0 to |inbounds|
      invariant Visited(obs, inbounds, i, drained, view) && Remaining(inbounds, i, left, drained)
    {
      hide Complete, Matches, DistinctKeys, ListsOnce, Remaining, Visited;
      var x := inbounds[i];
      assert x in inbounds;
      if !x.enable {
        StillRemain(inbounds, i, left, drained);
        VisitedSame(obs, inbounds, i, drained, view);
        continue;
      }
      var active, rest := CollectActive(x, left, view);
      var mine := CollectRest(x, left, rest, view, active);
      OwnRemain(inbounds, i, left, rest, drained, active);
      VisitedMore(obs, mine, inbounds, i, left, drained, view);
      obs := obs + mine;
      left := rest;
    }
  }

  /** The inbounds up to a place are observed, and nothing else is. */
  ghost predicate Visited(obs: seq<Observation>, inbounds: seq<Inbound>, i: nat, drained: map<Online.Key, Online.Bytes>, view: View)
    requires i <= |inbounds|
  {
    && DistinctKeys(obs)
    && (forall o <- obs :: exists j :: 0 <= j < i && inbounds[j].enable && Matches(o, inbounds[j], drained, view))
    && (forall j :: 0 <= j < i && inbounds[j].enable ==> Complete(obs, inbounds[j], drained, view))
  }

  lemma VisitedSame(obs: seq<Observation>, inbounds: seq<Inbound>, i: nat, drained: map<Online.Key, Online.Bytes>, view: View)
    requires i < |inbounds| && !inbounds[i].enable && Visited(obs, inbounds, i, drained, view)
    ensures Visited(obs, inbounds, i + 1, drained, view)
  {
    hide Complete, Matches, DistinctKeys;
  }

  lemma VisitedMore(obs: seq<Observation>, mine: seq<Observation>, inbounds: seq<Inbound>, i: nat,
                    left: map<Online.Key, Online.Bytes>, drained: map<Online.Key, Online.Bytes>, view: View)
    requires i < |inbounds| && inbounds[i].enable && Visited(obs, inbounds, i, drained, view)
    requires forall j :: 0 <= j < i ==> inbounds[j].id != inbounds[i].id
    requires DistinctKeys(mine) && (forall o <- mine :: Matches(o, inbounds[i], left, view)) && Complete(mine, inbounds[i], left, view)
    requires forall k: Online.Key :: k.port == inbounds[i].port ==> (k in left <==> k in drained)
    requires forall k :: k in left ==> k in drained && left[k] == drained[k]
    ensures Visited(obs + mine, inbounds, i + 1, drained, view)
  {
    var x := inbounds[i];
    forall o | o in mine
      ensures Matches(o, x, drained, view) && o.key.inbound == x.id
    {
      SamePort(o, x, left, drained, view);
    }
    forall o | o in obs
      ensures o.key.inbound != x.id
    {
      var j :| 0 <= j < i && inbounds[j].enable && Matches(o, inbounds[j], drained, view);
    }
    MoreComplete(mine, x, left, drained, view);
    hide Complete, Matches, DistinctKeys;
    KeysApart(obs, mine, x.id);
    StillComplete(mine, obs, x, drained, view);
    forall j | 0 <= j < i && inbounds[j].enable
      ensures Complete(obs + mine, inbounds[j], drained, view)
    {
      StillComplete(obs, mine, inbounds[j], drained, view);
    }
    forall o | o in obs + mine
      ensures exists j :: 0 <= j < i + 1 && inbounds[j].enable && Matches(o, inbounds[j], drained, view)
    {
      if o in mine {
        assert Matches(o, inbounds[i], drained, view);
      }
    }
  }
}
