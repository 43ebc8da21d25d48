/**
 The proxy core's router, reduced to what the generated configuration relies on: first match over the rule list,
 with domain targets resolved never, only in a second pass, or from the start.
 */
module Router {
  import opened Collections
  import opened Json

  type Ip = string

  datatype Target = DomainTarget(name: string) | IpTarget(ip: Ip)

  datatype Conn = Conn(inboundTag: string, target: Target)

  datatype Strategy = AsIs | IpIfNonMatch | IpOnDemand

  /**
   A field rule restricts by inbound, domains and addresses; an empty list does not restrict. Template rules may
   use any other condition, so they are only known by a number.
   */
  datatype Rule =
    | Template(id: int, outboundTag: string)
    | Field(inboundTags: seq<string>, domains: seq<string>, ips: seq<string>, outboundTag: string)

  /** Matching one domain or address condition, other conditions and DNS are the core's own. */
  datatype World = World(
    resolve: string -> seq<Ip>,
    domainMatch: (string, string) -> bool,
    ipMatch: (string, seq<Ip>) -> bool,
    otherMatch: (int, Conn, seq<Ip>) -> bool)

  const GUARD: seq<string> := ["0.0.0.0/0", "::/0"]

  /** A list of conditions matches if one of them does. */
  predicate AnyDomain(w: World, domains: seq<string>, name: string) {
    exists d <- domains :: w.domainMatch(d, name)
  }

  predicate AnyIp(w: World, conds: seq<string>, ips: seq<Ip>) {
    exists cond <- conds :: w.ipMatch(cond, ips)
  }

  /** An address condition needs an address; the guard accepts any address. */
  ghost predicate Lawful(w: World) {
    && (forall cond :: !w.ipMatch(cond, []))
    && (forall ips :: ips != [] ==> AnyIp(w, GUARD, ips))
  }

  /** The addresses a pass can see. */
  function Visible(w: World, c: Conn, resolved: bool): seq<Ip> {
    match c.target
    case IpTarget(ip) => [ip]
    case DomainTarget(name) => if resolved then w.resolve(name) else []
  }

  predicate DomainOk(w: World, domains: seq<string>, t: Target) {
    domains == [] || (t.DomainTarget? && AnyDomain(w, domains, t.name))
  }

  predicate Applies(w: World, r: Rule, c: Conn, resolved: bool) {
    match r
    case Template(id, _) => w.otherMatch(id, c, Visible(w, c, resolved))
    case Field(inboundTags, domains, ips, _) =>
      && (inboundTags == [] || c.inboundTag in inboundTags)
      && DomainOk(w, domains, c.target)
      && (ips == [] || AnyIp(w, ips, Visible(w, c, resolved)))
  }

  function FirstMatch(w: World, rules: seq<Rule>, c: Conn, resolved: bool): Option<string> {
    if rules == [] then None
    else if Applies(w, rules[0], c, resolved) then Some(rules[0].outboundTag)
    else FirstMatch(w, rules[1..], c, resolved)
  }

  /** The outbound tag the router picks, None for the default outbound. */
  function Pick(w: World, strategy: Strategy, rules: seq<Rule>, c: Conn): Option<string> {
    match strategy
    case AsIs => FirstMatch(w, rules, c, false)
    case IpOnDemand => FirstMatch(w, rules, c, true)
    case IpIfNonMatch =>
      match FirstMatch(w, rules, c, false)
      case Some(tag) => Some(tag)
      case None => if c.target.DomainTarget? then FirstMatch(w, rules, c, true) else None
  }

  /** The first outbound with a tag. */
  function FindTag(outbounds: seq<Json>, tag: string): Option<Json> {
    if outbounds == [] then None
    else if TagOf(outbounds[0]) == tag then Some(outbounds[0])
    else FindTag(outbounds[1..], tag)
  }

  /** The outbound a connection leaves by: the default one for no match, and silently also for a dangling tag. */
  function Egress(outbounds: seq<Json>, picked: Option<string>): Json
    requires outbounds != []
  {
    match picked
    case None => outbounds[0]
    case Some(tag) =>
      match FindTag(outbounds, tag)
      case Some(ob) => ob
      case None => outbounds[0]
  }

  function Lower(s: string): string {
    if s == [] then [] else [LowerLetter(s[0])] + Lower(s[1..])
  }

  function LowerLetter(c: char): char {
    if 'A' <= c <= 'Z' then (c as int + 32) as char else c
  }

  /** How the core reads the domainStrategy member. */
  function StrategyOf(v: Json): Strategy {
    if !v.Str? then AsIs
    else if Lower(v.s) == "ipifnonmatch" then IpIfNonMatch
    else if Lower(v.s) == "ipondemand" then IpOnDemand
    else AsIs
  }

  lemma {:induction false} FirstMatchConcat(w: World, xs: seq<Rule>, ys: seq<Rule>, c: Conn, resolved: bool)
    ensures FirstMatch(w, xs + ys, c, resolved) ==
      match FirstMatch(w, xs, c, resolved) { case Some(t) => Some(t) case None => FirstMatch(w, ys, c, resolved) }
  {
    if xs == [] {
      assert xs + ys == ys;
    } else {
      FirstMatchConcat(w, xs[1..], ys, c, resolved);
      assert (xs + ys)[1..] == xs[1..] + ys;
    }
  }

  lemma {:induction false} FirstMatchNone(w: World, rules: seq<Rule>, c: Conn, resolved: bool)
    ensures FirstMatch(w, rules, c, resolved) == None <==> forall r <- rules :: !Applies(w, r, c, resolved)
    ensures FirstMatch(w, rules, c, resolved).Some? ==>
      exists r <- rules :: Applies(w, r, c, resolved) && FirstMatch(w, rules, c, resolved) == Some(r.outboundTag)
  {
    if rules != [] {
      FirstMatchNone(w, rules[1..], c, resolved);
      assert forall r <- rules[1..] :: r in rules;
      if FirstMatch(w, rules, c, resolved).Some? {
        if Applies(w, rules[0], c, resolved) {
          assert rules[0] in rules;
        } else {
          var r :| r in rules[1..] && Applies(w, r, c, resolved) &&
                   FirstMatch(w, rules[1..], c, resolved) == Some(r.outboundTag);
          assert r in rules;
        }
      }
    }
  }

  lemma {:induction false} FindTagConcat(xs: seq<Json>, ys: seq<Json>, tag: string)
    ensures FindTag(xs + ys, tag) ==
      match FindTag(xs, tag) { case Some(ob) => Some(ob) case None => FindTag(ys, tag) }
  {
    if xs == [] {
      assert xs + ys == ys;
    } else {
      FindTagConcat(xs[1..], ys, tag);
      assert (xs + ys)[1..] == xs[1..] + ys;
    }
  }

  lemma {:induction false} FindTagFound(outbounds: seq<Json>, tag: string)
    ensures FindTag(outbounds, tag).Some? ==>
      FindTag(outbounds, tag).value in outbounds && TagOf(FindTag(outbounds, tag).value) == tag
    ensures FindTag(outbounds, tag).None? <==> forall ob <- outbounds :: TagOf(ob) != tag
  {
    if outbounds != [] {
      FindTagFound(outbounds[1..], tag);
    }
  }

  /** The same letters, whatever their case. */
  predicate SameLetters(a: string, b: string) {
    |a| == |b| && forall i :: 0 <= i < |a| ==> SameLetter(a[i], b[i])
  }

  predicate SameLetter(a: char, b: char) {
    a == b || ('A' <= a <= 'Z' && b as int == a as int + 32) || ('A' <= b <= 'Z' && a as int == b as int + 32)
  }

  lemma {:induction false} LowerExactly(s: string, t: string)
    requires forall c <- t :: !('A' <= c <= 'Z')
    ensures Lower(s) == t <==> SameLetters(s, t)
  {
    if s != "" && t != "" {
      assert t[0] in t && forall c <- t[1..] :: c in t;
      LowerExactly(s[1..], t[1..]);
      SameLettersUnfold(s, t);
      LowerUnfold(s, t);
      hide Lower, SameLetters, SameLetter;
    }
  }

  lemma LowerUnfold(s: string, t: string)
    requires s != "" && t != "" && !('A' <= t[0] <= 'Z')
    ensures Lower(s) == t <==> SameLetter(s[0], t[0]) && Lower(s[1..]) == t[1..]
  {
    LowerLetterExactly(s[0], t[0]);
    hide LowerLetter, SameLetter;
    FirstAndRest(LowerLetter(s[0]), Lower(s[1..]), t);
  }

  lemma LowerLetterExactly(c: char, d: char)
    requires !('A' <= d <= 'Z')
    ensures LowerLetter(c) == d <==> SameLetter(c, d)
  {
  }

  lemma FirstAndRest(c: char, rest: string, t: string)
    requires t != ""
    ensures [c] + rest == t <==> c == t[0] && rest == t[1..]
  {
    assert ([c] + rest)[0] == c && ([c] + rest)[1..] == rest;
    assert t == [t[0]] + t[1..];
  }

  lemma SameLettersUnfold(s: string, t: string)
    requires s != "" && t != ""
    ensures SameLetters(s, t) <==> SameLetter(s[0], t[0]) && SameLetters(s[1..], t[1..])
  {
    hide SameLetter;
    if SameLetter(s[0], t[0]) && SameLetters(s[1..], t[1..]) {
      forall i | 0 <= i < |s|
        ensures SameLetter(s[i], t[i])
      {
        assert i > 0 ==> s[i] == s[1..][i - 1] && t[i] == t[1..][i - 1];
      }
    }
  }

  /** The resolving strategies are known by name, whatever the case of the letters. */
  lemma StrategyExactly(v: Json)
    ensures StrategyOf(v) == IpIfNonMatch <==> v.Str? && SameLetters(v.s, "ipifnonmatch")
    ensures StrategyOf(v) == IpOnDemand <==> v.Str? && SameLetters(v.s, "ipondemand")
  {
    if v.Str? {
      LowerExactly(v.s, "ipifnonmatch");
      LowerExactly(v.s, "ipondemand");
    }
    hide Lower, SameLetters;
    assert "ipifnonmatch"[2] != "ipondemand"[2];
  }
}
