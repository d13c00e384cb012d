/** Which hosts a play's pattern selects, and what the preview reports about them over all plays. */
module HostMatching {
  import opened Prelude
  import opened Text
  import opened Slug
  import Includes = IncludeExpansion

  datatype Host = Host(id: int, name: string, groups: seq<string>)

  /** fnmatch(name, pattern), left uninterpreted. */
  type Glob = (string, string) -> bool

  // ----- Order of the result -----

  predicate TextLe(a: string, b: string) {
    a == [] || (b != [] && (a[0] < b[0] || (a[0] == b[0] && TextLe(a[1..], b[1..]))))
  }

  predicate HostLe(a: Host, b: Host) {
    if a.name == b.name then a.id <= b.id else TextLe(a.name, b.name)
  }

  lemma {:induction false} TextTotal(a: string, b: string)
    ensures TextLe(a, b) || TextLe(b, a)
    ensures TextLe(a, b) && TextLe(b, a) ==> a == b
  {
    if a != [] && b != [] && a[0] == b[0] {
      TextTotal(a[1..], b[1..]);
      assert a == [a[0]] + a[1..] && b == [b[0]] + b[1..];
    }
  }

  lemma {:induction false} TextTransitive(a: string, b: string, c: string)
    requires TextLe(a, b) && TextLe(b, c)
    ensures TextLe(a, c)
  {
    if a != [] && a[0] == b[0] == c[0] {
      TextTransitive(a[1..], b[1..], c[1..]);
    }
  }

  /** The shorter text first, or the one with the smaller character where they first differ. */
  ghost predicate Before(a: string, b: string) {
    a < b || exists k :: 0 <= k < |a| && k < |b| && a[..k] == b[..k] && a[k] < b[k]
  }

  /** By name, then by id. */
  ghost predicate ComesFirst(a: Host, b: Host) { Before(a.name, b.name) || (a.name == b.name && a.id <= b.id) }

  lemma {:induction false} TextOrder(a: string, b: string)
    ensures TextLe(a, b) <==> a == b || Before(a, b)
  {
    if a != [] && b != [] {
      assert a == [a[0]] + a[1..] && b == [b[0]] + b[1..];
      if a[0] == b[0] {
        TextOrder(a[1..], b[1..]);
        SameHead(a[0], a[1..], b[1..]);
      } else {
        assert a[..0] == b[..0];
      }
    }
  }

  lemma SameHead(c: char, a: string, b: string)
    ensures Before([c] + a, [c] + b) <==> Before(a, b)
  {
    var x, y := [c] + a, [c] + b;
    if x < y {
      assert forall i :: 0 <= i < |a| ==> a[i] == x[i + 1] == y[i + 1] == b[i];
    }
    if k :| 0 <= k < |x| && k < |y| && x[..k] == y[..k] && x[k] < y[k] {
      assert a[..k - 1] == x[..k][1..] && b[..k - 1] == y[..k][1..];
      assert a[k - 1] < b[k - 1];
    }
    if k :| 0 <= k < |a| && k < |b| && a[..k] == b[..k] && a[k] < b[k] {
      assert x[..k + 1] == [c] + a[..k] && y[..k + 1] == [c] + b[..k];
      assert x[k + 1] < y[k + 1];
    }
  }

  lemma HostLeIs(a: Host, b: Host)
    ensures HostLe(a, b) <==> ComesFirst(a, b)
  {
    TextOrder(a.name, b.name);
    TextOrder(b.name, a.name);
    NotBeforeItself(a.name);
  }

  lemma NotBeforeItself(a: string)
    ensures !Before(a, a)
  {
  }

  lemma HostOrder()
    ensures TotalPreorder(HostLe)
  {
    forall a, b ensures HostLe(a, b) || HostLe(b, a) {
      TextTotal(a.name, b.name);
    }
    forall a, b, c | HostLe(a, b) && HostLe(b, c) ensures HostLe(a, c) {
      TextTotal(a.name, a.name);
      TextTotal(a.name, b.name);
      TextTotal(b.name, c.name);
      if TextLe(a.name, b.name) && TextLe(b.name, c.name) {
        TextTransitive(a.name, b.name, c.name);
      }
    }
  }

  // ----- Tokens and matches -----

  predicate Contains(s: string, part: string) {
    part <= s || (s != [] && Contains(s[1..], part))
  }

  function Raw(pattern: string): string { Strip(if pattern == "" then "all" else pattern, IsSpace) }

  predicate IsAll(pattern: string) { Raw(pattern) == "all" || Raw(pattern) == "*" }

  predicate IsDynamic(pattern: string) {
    !IsAll(pattern) &&
    (Contains(Raw(pattern), "{{") || Contains(Raw(pattern), "}}") || '&' in Raw(pattern) || '!' in Raw(pattern))
  }

  function Colon(c: char): char { if c == ',' then ':' else c }

  function Trim(t: string): string { Strip(t, IsSpace) }

  predicate Filled(t: string) { t != "" }

  function Parts(raw: string): seq<string> { Filter(Map(Split(Map(raw, Colon), ':'), Trim), Filled) }

  function Tokens(pattern: string): seq<string> { Parts(Raw(pattern)) }

  predicate NameMatches(glob: Glob, token: string, h: Host) { token == h.name || glob(h.name, token) }

  predicate GroupMatches(glob: Glob, token: string, g: string) { token == g || glob(g, token) }

  /** The first group the token matches, which the report names; none when the host name matches already. */
  function FirstGroup(glob: Glob, token: string, groups: seq<string>): (g: Option<string>)
    ensures g.Some? ==> g.value in groups && GroupMatches(glob, token, g.value)
    ensures g.None? ==> forall x :: x in groups ==> !GroupMatches(glob, token, x)
  {
    if groups == [] then None
    else if GroupMatches(glob, token, groups[0]) then Some(groups[0])
    else FirstGroup(glob, token, groups[1..])
  }

  predicate Hits(glob: Glob, token: string, h: Host) {
    NameMatches(glob, token, h) || exists g :: g in h.groups && GroupMatches(glob, token, g)
  }

  /** The tokens that match a host by name or group. */
  function MatchedBy(glob: Glob, tokens: seq<string>, h: Host): set<string> {
    set t | t in tokens && Hits(glob, t, h)
  }

  function MatchedGroups(glob: Glob, tokens: seq<string>, h: Host): set<string> {
    set t | t in tokens && !NameMatches(glob, t, h) && FirstGroup(glob, t, h.groups).Some?
      :: FirstGroup(glob, t, h.groups).value
  }

  /** The token matches this group of the host and none before it. */
  ghost predicate LeadsTo(glob: Glob, token: string, groups: seq<string>, g: string) {
    exists i :: 0 <= i < |groups| && groups[i] == g && GroupMatches(glob, token, g)
      && forall j :: 0 <= j < i ==> !GroupMatches(glob, token, groups[j])
  }

  lemma {:induction false} FirstGroupIs(glob: Glob, token: string, groups: seq<string>, g: string)
    ensures FirstGroup(glob, token, groups) == Some(g) <==> LeadsTo(glob, token, groups, g)
  {
    if groups != [] && !GroupMatches(glob, token, groups[0]) {
      FirstGroupIs(glob, token, groups[1..], g);
      LeadsLater(glob, token, groups, g);
    }
  }

  lemma LeadsLater(glob: Glob, token: string, groups: seq<string>, g: string)
    requires groups != [] && !GroupMatches(glob, token, groups[0])
    ensures LeadsTo(glob, token, groups, g) <==> LeadsTo(glob, token, groups[1..], g)
  {
    var rest := groups[1..];
    assert forall i :: 0 <= i < |rest| ==> rest[i] == groups[i + 1];
    if LeadsTo(glob, token, groups, g) {
      var i :| 0 <= i < |groups| && groups[i] == g && GroupMatches(glob, token, g)
        && (forall j :: 0 <= j < i ==> !GroupMatches(glob, token, groups[j]));
      assert rest[i - 1] == g;
    }
    if LeadsTo(glob, token, rest, g) {
      var i :| 0 <= i < |rest| && rest[i] == g && GroupMatches(glob, token, g)
        && (forall j :: 0 <= j < i ==> !GroupMatches(glob, token, rest[j]));
      assert groups[i + 1] == g && forall j :: 0 < j < i + 1 ==> groups[j] == rest[j - 1];
    }
  }

  datatype Match = Match(host: Host, hits: set<string>, groups: set<string>)

  function Matched(glob: Glob, tokens: seq<string>, hosts: seq<Host>): seq<Host> {
    StableSort(Filter(hosts, (h: Host) => MatchedBy(glob, tokens, h) != {}), HostLe)
  }

  /** The specification: every host for "all", none for a dynamic pattern, else the hosts some token matches,
      sorted by name and id, each with exactly its matching tokens. */
  function PatternMatches(glob: Glob, pattern: string, hosts: seq<Host>): seq<Match> {
    if IsAll(pattern) then Map(hosts, (h: Host) => Match(h, {}, {}))
    else if IsDynamic(pattern) then []
    else
      var tokens := Tokens(pattern);
      Map(Matched(glob, tokens, hosts), (h: Host) => Match(h, MatchedBy(glob, tokens, h), MatchedGroups(glob, tokens, h)))
  }

  ghost predicate DistinctIds(hosts: seq<Host>) {
    forall i, j :: 0 <= i < j < |hosts| ==> hosts[i].id != hosts[j].id
  }

  ghost predicate Selected(matches: seq<Match>, h: Host) { exists m :: m in matches && m.host == h }

  ghost predicate SomeTokenHits(glob: Glob, tokens: seq<string>, h: Host) { exists t :: t in tokens && Hits(glob, t, h) }

  lemma MatchedIff(glob: Glob, tokens: seq<string>, h: Host)
    ensures MatchedBy(glob, tokens, h) != {} <==> SomeTokenHits(glob, tokens, h)
  {
    if t :| t in tokens && Hits(glob, t, h) {
      assert t in MatchedBy(glob, tokens, h);
    }
  }

  lemma MatchedMembers(glob: Glob, tokens: seq<string>, hosts: seq<Host>, h: Host)
    ensures h in Matched(glob, tokens, hosts) <==> h in hosts && SomeTokenHits(glob, tokens, h)
  {
    HostOrder();
    SortCorrect(Filter(hosts, (h: Host) => MatchedBy(glob, tokens, h) != {}), HostLe);
    MatchedIff(glob, tokens, h);
  }

  lemma SelectedMembers(ordered: seq<Host>, r: seq<Match>, h: Host)
    requires |r| == |ordered| && forall i :: 0 <= i < |r| ==> r[i].host == ordered[i]
    ensures Selected(r, h) <==> h in ordered
  {
    if h in ordered {
      var i :| 0 <= i < |ordered| && ordered[i] == h;
      assert r[i] in r;
    }
  }

  lemma SelectedExactly(glob: Glob, pattern: string, hosts: seq<Host>, h: Host)
    requires !IsAll(pattern) && !IsDynamic(pattern)
    ensures Selected(PatternMatches(glob, pattern, hosts), h) <==> h in hosts && SomeTokenHits(glob, Tokens(pattern), h)
  {
    MatchedMembers(glob, Tokens(pattern), hosts, h);
    SelectedMembers(Matched(glob, Tokens(pattern), hosts), PatternMatches(glob, pattern, hosts), h);
  }

  /** Some token does not match the host's name, and this is the first group it matches. */
  ghost predicate ReportsGroup(glob: Glob, tokens: seq<string>, h: Host, g: string) {
    exists t :: t in tokens && !NameMatches(glob, t, h) && LeadsTo(glob, t, h.groups, g)
  }

  /** The specification in plain terms: who is selected, in which order, by which tokens and through which groups. */
  lemma MatchesAreExact(glob: Glob, pattern: string, hosts: seq<Host>)
    requires !IsAll(pattern) && !IsDynamic(pattern)
    ensures var r := PatternMatches(glob, pattern, hosts);
      && (forall h :: Selected(r, h) <==> h in hosts && SomeTokenHits(glob, Tokens(pattern), h))
      && (forall i, j :: 0 <= i < j < |r| ==> ComesFirst(r[i].host, r[j].host))
      && (forall m, t :: m in r ==> (t in m.hits <==> t in Tokens(pattern) && Hits(glob, t, m.host)))
      && (forall m, g :: m in r ==> (g in m.groups <==> ReportsGroup(glob, Tokens(pattern), m.host, g)))
  {
    forall t, groups, g ensures FirstGroup(glob, t, groups) == Some(g) <==> LeadsTo(glob, t, groups, g) {
      FirstGroupIs(glob, t, groups, g);
    }
    forall h
      ensures Selected(PatternMatches(glob, pattern, hosts), h) <==> h in hosts && SomeTokenHits(glob, Tokens(pattern), h)
    {
      SelectedExactly(glob, pattern, hosts, h);
    }
    HostOrder();
    SortCorrect(Filter(hosts, (h: Host) => MatchedBy(glob, Tokens(pattern), h) != {}), HostLe);
    forall a, b ensures HostLe(a, b) <==> ComesFirst(a, b) {
      HostLeIs(a, b);
    }
  }

  // ----- The matcher as it runs -----

  lemma SameMaximum(a: seq<Host>, b: seq<Host>)
    requires multiset(a) == multiset(b) && Sorted(a, HostLe) && Sorted(b, HostLe) && DistinctIds(a)
    requires a != [] && b != []
    ensures Last(a) == Last(b)
  {
    HostOrder();
    var x, y := Last(a), Last(b);
    assert x in multiset(a) && y in multiset(b);
    assert x in b && y in a;
    SortedLast(a, y, HostLe);
    SortedLast(b, x, HostLe);
    TextTotal(x.name, y.name);
    SameLast(a, x, y);
  }

  lemma SameSize(a: seq<Host>, b: seq<Host>)
    requires multiset(a) == multiset(b)
    ensures |a| == |b|
  {
    assert |a| == |multiset(a)| && |b| == |multiset(b)|;
  }

  lemma InitFacts(s: seq<Host>)
    requires s != []
    ensures Sorted(s, HostLe) ==> Sorted(Init(s), HostLe)
    ensures DistinctIds(s) ==> DistinctIds(Init(s))
    ensures multiset(Init(s)) == multiset(s) - multiset{Last(s)}
  {
    assert s == Init(s) + [Last(s)];
    assert forall i :: 0 <= i < |Init(s)| ==> Init(s)[i] == s[i];
  }

  lemma {:induction false} SortedUnique(a: seq<Host>, b: seq<Host>)
    requires multiset(a) == multiset(b) && Sorted(a, HostLe) && Sorted(b, HostLe) && DistinctIds(a)
    ensures a == b
  {
    SameSize(a, b);
    if a != [] {
      SameMaximum(a, b);
      InitFacts(a);
      InitFacts(b);
      var front, other := Init(a), Init(b);
      assert multiset(front) == multiset(other);
      SortedUnique(front, other);
      assert a == Init(a) + [Last(a)] && b == Init(b) + [Last(b)];
    }
  }

  lemma SameLast(a: seq<Host>, x: Host, y: Host)
    requires DistinctIds(a) && x in a && y in a && x.id == y.id
    ensures x == y
  {
    var i :| 0 <= i < |a| && a[i] == x;
    var j :| 0 <= j < |a| && a[j] == y;
    assert i == j || i < j || j < i;
  }

  lemma {:induction false} DistinctMultiset(a: seq<Host>, b: seq<Host>)
    requires DistinctIds(a) && DistinctIds(b) && forall h :: h in a <==> h in b
    ensures multiset(a) == multiset(b)
  {
    forall h ensures multiset(a)[h] == multiset(b)[h] {
      OnceOnly(a, h);
      OnceOnly(b, h);
    }
  }

  lemma {:induction false} OnceOnly(a: seq<Host>, h: Host)
    requires DistinctIds(a)
    ensures multiset(a)[h] == if h in a then 1 else 0
  {
    if a != [] {
      OnceOnly(Init(a), h);
      assert a == Init(a) + [Last(a)];
      forall i | 0 <= i < |Init(a)| ensures Init(a)[i] != Last(a) {
        assert a[i].id != a[|a| - 1].id;
      }
    }
  }

  lemma {:induction false} FilterDistinct(hosts: seq<Host>, p: Host -> bool)
    requires DistinctIds(hosts)
    ensures DistinctIds(Filter(hosts, p))
  {
    if hosts != [] {
      FilterDistinct(Init(hosts), p);
      var front := Filter(Init(hosts), p);
      forall i | 0 <= i < |front| ensures front[i].id != Last(hosts).id {
        assert front[i] in Init(hosts);
        var j :| 0 <= j < |Init(hosts)| && Init(hosts)[j] == front[i];
        assert hosts[j].id != hosts[|hosts| - 1].id;
      }
    }
  }

  function ByOf(hits: map<int, set<string>>, id: int): set<string> { if id in hits then hits[id] else {} }

  /** The dictionaries hold for this host what the tokens say. */
  ghost predicate HostOk(glob: Glob, tokens: seq<string>, h: Host, found: seq<Host>, hits: map<int, set<string>>,
                         via: map<int, set<string>>) {
    && ByOf(hits, h.id) == MatchedBy(glob, tokens, h) && ByOf(via, h.id) == MatchedGroups(glob, tokens, h)
    && (h in found <==> h.id in hits)
    && (h.id in hits ==> hits[h.id] != {})
  }

  ghost predicate FoundOk(hosts: seq<Host>, found: seq<Host>) {
    (forall h :: h in found ==> h in hosts) && DistinctIds(found)
  }

  /** The dictionaries after some tokens (and, for the hosts before index j, one more). */
  ghost predicate Progress(glob: Glob, done: seq<string>, more: seq<string>, hosts: seq<Host>, j: nat,
                           found: seq<Host>, hits: map<int, set<string>>, via: map<int, set<string>>) {
    && (forall i :: 0 <= i < |hosts| ==> HostOk(glob, if i < j then more else done, hosts[i], found, hits, via))
    && FoundOk(hosts, found)
  }

  /** What one more token adds for a host. */
  lemma OneToken(glob: Glob, done: seq<string>, token: string, h: Host)
    ensures MatchedBy(glob, done + [token], h)
         == MatchedBy(glob, done, h) + (if Hits(glob, token, h) then {token} else {})
    ensures MatchedGroups(glob, done + [token], h)
         == MatchedGroups(glob, done, h)
            + (if !NameMatches(glob, token, h) && FirstGroup(glob, token, h.groups).Some?
               then {FirstGroup(glob, token, h.groups).value} else {})
    ensures Hits(glob, token, h) <==> NameMatches(glob, token, h) || FirstGroup(glob, token, h.groups).Some?
  {
    assert forall t :: t in done + [token] <==> t in done || t == token;
  }

  method MatchToken(glob: Glob, ghost done: seq<string>, token: string, hosts: seq<Host>, found0: seq<Host>,
                    hits0: map<int, set<string>>, via0: map<int, set<string>>)
    returns (found: seq<Host>, hits: map<int, set<string>>, via: map<int, set<string>>)
    requires DistinctIds(hosts)
    requires Progress(glob, done, done, hosts, 0, found0, hits0, via0)
    ensures Progress(glob, done + [token], done + [token], hosts, 0, found, hits, via)
  {
    found, hits, via := found0, hits0, via0;
    var j := 0;
    while j < |hosts|
      invariant 0 <= j <= |hosts|
      invariant Progress(glob, done, done + [token], hosts, j, found, hits, via)
    {
      var h := hosts[j];
      ghost var found1, hits1, via1 := found, hits, via;
      assert HostOk(glob, done, h, found, hits, via);
      OneToken(glob, done, token, h);
      var group := if NameMatches(glob, token, h) then None else FirstGroup(glob, token, h.groups);
      if NameMatches(glob, token, h) || group.Some? {
        if h.id !in hits {
          NotFoundYet(glob, done, done + [token], hosts, found, hits, via, j);
          found := found + [h];
        }
        hits := hits[h.id := ByOf(hits, h.id) + {token}];
        if group.Some? {
          via := via[h.id := ByOf(via, h.id) + {group.value}];
        }
      }
      assert HostOk(glob, done + [token], h, found, hits, via);
      OthersUntouched(glob, done, done + [token], hosts, j, found1, hits1, via1, found, hits, via);
      j := j + 1;
    }
  }

  lemma OthersUntouched(glob: Glob, done: seq<string>, more: seq<string>, hosts: seq<Host>, j: nat,
                        found: seq<Host>, hits: map<int, set<string>>, via: map<int, set<string>>,
                        found': seq<Host>, hits': map<int, set<string>>, via': map<int, set<string>>)
    requires DistinctIds(hosts) && j < |hosts| && Progress(glob, done, more, hosts, j, found, hits, via)
    requires HostOk(glob, more, hosts[j], found', hits', via') && FoundOk(hosts, found')
    requires found' == found || found' == found + [hosts[j]]
    requires forall id :: id != hosts[j].id ==> Lookup(hits', id) == Lookup(hits, id) && Lookup(via', id) == Lookup(via, id)
    ensures Progress(glob, done, more, hosts, j + 1, found', hits', via')
  {
    forall i | 0 <= i < |hosts| ensures HostOk(glob, if i < j + 1 then more else done, hosts[i], found', hits', via') {
      if i != j {
        var h := hosts[i];
        assert h.id != hosts[j].id;
        assert HostOk(glob, if i < j then more else done, h, found, hits, via);
        assert Lookup(hits', h.id) == Lookup(hits, h.id) && Lookup(via', h.id) == Lookup(via, h.id);
        assert h in found' <==> h in found;
      }
    }
  }

  lemma NotFoundYet(glob: Glob, done: seq<string>, more: seq<string>, hosts: seq<Host>, found: seq<Host>,
                    hits: map<int, set<string>>, via: map<int, set<string>>, j: nat)
    requires DistinctIds(hosts) && j < |hosts| && Progress(glob, done, more, hosts, j, found, hits, via)
    requires hosts[j].id !in hits
    ensures FoundOk(hosts, found + [hosts[j]])
  {
    forall i | 0 <= i < |found| ensures found[i].id != hosts[j].id {
      assert found[i] in found && found[i] in hosts;
      var k :| 0 <= k < |hosts| && hosts[k] == found[i];
      assert HostOk(glob, if k < j then more else done, hosts[k], found, hits, via);
    }
    assert hosts[j] in hosts;
  }

  method MatchTokens(glob: Glob, tokens: seq<string>, hosts: seq<Host>)
    returns (found: seq<Host>, hits: map<int, set<string>>, via: map<int, set<string>>)
    requires DistinctIds(hosts)
    ensures Progress(glob, tokens, tokens, hosts, 0, found, hits, via)
  {
    found, hits, via := [], map[], map[];
    var i := 0;
    while i < |tokens|
      invariant 0 <= i <= |tokens|
      invariant Progress(glob, tokens[..i], tokens[..i], hosts, 0, found, hits, via)
    {
      assert tokens[..i + 1] == tokens[..i] + [tokens[i]];
      found, hits, via := MatchToken(glob, tokens[..i], tokens[i], hosts, found, hits, via);
      i := i + 1;
    }
    assert tokens[..i] == tokens;
  }

  method MatchHosts(glob: Glob, pattern: string, hosts: seq<Host>) returns (matches: seq<Match>, direct: bool)
    requires DistinctIds(hosts)
    ensures matches == PatternMatches(glob, pattern, hosts)
    ensures direct <==> !IsDynamic(pattern)
  {
    if IsAll(pattern) {
      return Map(hosts, (h: Host) => Match(h, {}, {})), true;
    }
    if IsDynamic(pattern) {
      return [], false;
    }
    var tokens := Tokens(pattern);
    var found, hits, via := MatchTokens(glob, tokens, hosts);
    matches := Map(StableSort(found, HostLe), (h: Host) => Match(h, ByOf(hits, h.id), ByOf(via, h.id)));
    direct := true;
    Reported(glob, tokens, hosts, found, hits, via);
  }

  lemma Reported(glob: Glob, tokens: seq<string>, hosts: seq<Host>, found: seq<Host>,
                 hits: map<int, set<string>>, via: map<int, set<string>>)
    requires DistinctIds(hosts) && Progress(glob, tokens, tokens, hosts, 0, found, hits, via)
    ensures var ordered := StableSort(found, HostLe);
      && ordered == Matched(glob, tokens, hosts)
      && forall k :: 0 <= k < |ordered| ==>
           && ByOf(hits, ordered[k].id) == MatchedBy(glob, tokens, ordered[k])
           && ByOf(via, ordered[k].id) == MatchedGroups(glob, tokens, ordered[k])
  {
    OrderedIsMatched(glob, tokens, hosts, found, hits, via);
    var ordered := StableSort(found, HostLe);
    forall k | 0 <= k < |ordered|
      ensures ByOf(hits, ordered[k].id) == MatchedBy(glob, tokens, ordered[k])
           && ByOf(via, ordered[k].id) == MatchedGroups(glob, tokens, ordered[k])
    {
      assert ordered[k] in ordered;
      FoundHost(glob, tokens, hosts, found, hits, via, ordered[k]);
    }
  }

  lemma FoundHost(glob: Glob, tokens: seq<string>, hosts: seq<Host>, found: seq<Host>,
                  hits: map<int, set<string>>, via: map<int, set<string>>, h: Host)
    requires Progress(glob, tokens, tokens, hosts, 0, found, hits, via) && h in found
    ensures ByOf(hits, h.id) == MatchedBy(glob, tokens, h) && ByOf(via, h.id) == MatchedGroups(glob, tokens, h)
  {
    assert h in hosts;
    var j :| 0 <= j < |hosts| && hosts[j] == h;
    assert HostOk(glob, tokens, hosts[j], found, hits, via);
  }

  lemma OrderedIsMatched(glob: Glob, tokens: seq<string>, hosts: seq<Host>, found: seq<Host>,
                         hits: map<int, set<string>>, via: map<int, set<string>>)
    requires DistinctIds(hosts) && Progress(glob, tokens, tokens, hosts, 0, found, hits, via)
    ensures StableSort(found, HostLe) == Matched(glob, tokens, hosts)
    ensures forall h :: h in StableSort(found, HostLe) ==> h in found
  {
    var hit := (h: Host) => MatchedBy(glob, tokens, h) != {};
    var kept := Filter(hosts, hit);
    forall h ensures h in found <==> h in kept {
      if h in hosts {
        var i :| 0 <= i < |hosts| && hosts[i] == h;
        assert HostOk(glob, tokens, hosts[i], found, hits, via);
      }
    }
    FilterDistinct(hosts, hit);
    DistinctMultiset(found, kept);
    HostOrder();
    SortCorrect(found, HostLe);
    SortCorrect(kept, HostLe);
    SortKeepsDistinct(found);
    SortedUnique(StableSort(found, HostLe), StableSort(kept, HostLe));
  }

  lemma SortKeepsDistinct(hosts: seq<Host>)
    requires DistinctIds(hosts)
    ensures DistinctIds(StableSort(hosts, HostLe))
  {
    HostOrder();
    SortCorrect(hosts, HostLe);
    var s := StableSort(hosts, HostLe);
    forall i, j | 0 <= i < j < |s| ensures s[i].id != s[j].id {
      assert s[i] in s && s[j] in s;
      if s[i].id == s[j].id {
        SameLast(hosts, s[i], s[j]);
        OnceOnly(hosts, s[i]);
        TwiceThere(s, i, j);
        assert false;
      }
    }
  }

  lemma TwiceThere(s: seq<Host>, i: nat, j: nat)
    requires i < j < |s| && s[i] == s[j]
    ensures multiset(s)[s[i]] >= 2
  {
    assert s == s[..j] + [s[j]] + s[j + 1..];
    assert s[..j][i] in multiset(s[..j]);
  }

  // ----- Over all plays -----

  /** A play's roles are expanded, and its tasks previewed, each with a set of open files of its own. */
  datatype Play = Play(name: string, pattern: string, roles: seq<string>, tasks: seq<Includes.Task>)

  datatype Target = Target(host: Host, hits: set<string>, groups: set<string>, plays: set<string>)

  function AddMatch(targets: map<int, Target>, m: Match, play: string): map<int, Target> {
    var old_ := if m.host.id in targets then targets[m.host.id] else Target(m.host, {}, {}, {});
    targets[m.host.id := old_.(hits := old_.hits + m.hits, groups := old_.groups + m.groups, plays := old_.plays + {play})]
  }

  ghost predicate InMatches(matches: seq<Match>, id: int) {
    exists m :: m in matches && m.host.id == id
  }

  ghost predicate InPlay(glob: Glob, p: Play, hosts: seq<Host>, id: int) {
    InMatches(PatternMatches(glob, p.pattern, hosts), id)
  }

  ghost predicate TokenIn(matches: seq<Match>, id: int, t: string) {
    exists m :: m in matches && m.host.id == id && t in m.hits
  }

  ghost predicate GroupIn(matches: seq<Match>, id: int, g: string) {
    exists m :: m in matches && m.host.id == id && g in m.groups
  }

  function HitsOf(targets: map<int, Target>, id: int): set<string> {
    if id in targets then targets[id].hits else {}
  }

  function GroupsOf(targets: map<int, Target>, id: int): set<string> {
    if id in targets then targets[id].groups else {}
  }

  function PlaysOf(targets: map<int, Target>, id: int): set<string> {
    if id in targets then targets[id].plays else {}
  }

  lemma OneMoreMatch(matches: seq<Match>, m: Match)
    ensures forall id :: InMatches(matches + [m], id) <==> InMatches(matches, id) || id == m.host.id
    ensures forall id, t :: TokenIn(matches + [m], id, t) <==> TokenIn(matches, id, t) || (id == m.host.id && t in m.hits)
    ensures forall id, g :: GroupIn(matches + [m], id, g) <==> GroupIn(matches, id, g) || (id == m.host.id && g in m.groups)
  {
    assert forall x :: x in matches + [m] <==> x in matches || x == m;
  }

  /** Every target is one of these hosts, under its id. */
  ghost predicate AreHosts(targets: map<int, Target>, hosts: seq<Host>) {
    forall id :: id in targets ==> targets[id].host in hosts && targets[id].host.id == id
  }

  ghost predicate ComeFrom(matches: seq<Match>, hosts: seq<Host>) { forall m :: m in matches ==> m.host in hosts }

  lemma MatchesComeFrom(glob: Glob, pattern: string, hosts: seq<Host>)
    ensures ComeFrom(PatternMatches(glob, pattern, hosts), hosts)
  {
    HostOrder();
    SortCorrect(Filter(hosts, (h: Host) => MatchedBy(glob, Tokens(pattern), h) != {}), HostLe);
  }

  method AddMatches(targets0: map<int, Target>, matches: seq<Match>, play: string, ghost hosts: seq<Host>)
    returns (targets: map<int, Target>)
    ensures AreHosts(targets0, hosts) && ComeFrom(matches, hosts) ==> AreHosts(targets, hosts)
    ensures forall id :: id in targets <==> id in targets0 || InMatches(matches, id)
    ensures forall id, p :: p in PlaysOf(targets, id) <==>
      p in PlaysOf(targets0, id) || (p == play && InMatches(matches, id))
    ensures forall id, t :: t in HitsOf(targets, id) <==> t in HitsOf(targets0, id) || TokenIn(matches, id, t)
    ensures forall id, g :: g in GroupsOf(targets, id) <==> g in GroupsOf(targets0, id) || GroupIn(matches, id, g)
  {
    targets := targets0;
    var i := 0;
    while i < |matches|
      invariant 0 <= i <= |matches|
      invariant AreHosts(targets0, hosts) && ComeFrom(matches, hosts) ==> AreHosts(targets, hosts)
      invariant forall id :: id in targets <==> id in targets0 || InMatches(matches[..i], id)
      invariant forall id, p :: p in PlaysOf(targets, id) <==>
        p in PlaysOf(targets0, id) || (p == play && InMatches(matches[..i], id))
      invariant forall id, t :: t in HitsOf(targets, id) <==> t in HitsOf(targets0, id) || TokenIn(matches[..i], id, t)
      invariant forall id, g :: g in GroupsOf(targets, id) <==> g in GroupsOf(targets0, id) || GroupIn(matches[..i], id, g)
    {
      assert matches[..i + 1] == matches[..i] + [matches[i]];
      OneMoreMatch(matches[..i], matches[i]);
      targets := AddMatch(targets, matches[i], play);
      i := i + 1;
    }
    assert matches[..i] == matches;
  }

  /** What a play previews; a role entry is expanded as an import of the role, and counts as direct. */
  function RoleImport(role: string): Includes.Task { Includes.ImportRole(role) }

  function Steps(p: Play): seq<Includes.Task> { Map(p.roles, RoleImport) + p.tasks }

  ghost predicate StepDirect(task: Includes.Task) { task.NotATask? || Includes.ConfidenceOf(task).Direct? }

  /** Expanding the task records no reason: every include target is there, is a task list, and is not open already. */
  ghost predicate Silent(files: Includes.FileTree, book: Includes.Path, task: Includes.Task) {
    Includes.ExpandTask(files, book, task, {}).reasons == []
  }

  ghost predicate PlayDirect(files: Includes.FileTree, book: Includes.Path, p: Play) {
    && !IsDynamic(p.pattern)
    && (forall role :: role in p.roles ==> Silent(files, book, Includes.ImportRole(role)))
    && forall t :: t in p.tasks ==> StepDirect(t) && Silent(files, book, t)
  }

  ghost predicate TasksDirect(p: Play) { forall t :: t in p.tasks ==> StepDirect(t) }

  lemma StepsAre(files: Includes.FileTree, book: Includes.Path, p: Play)
    ensures (forall t :: t in Steps(p) ==> StepDirect(t)) <==> TasksDirect(p)
    ensures (forall t :: t in Steps(p) ==> Silent(files, book, t))
       <==> (forall role :: role in p.roles ==> Silent(files, book, Includes.ImportRole(role)))
            && forall t :: t in p.tasks ==> Silent(files, book, t)
  {
    var imports := Map(p.roles, RoleImport);
    forall t ensures t in imports <==> exists role :: role in p.roles && RoleImport(role) == t {
      MapHas(p.roles, RoleImport, t);
    }
    forall role | role in p.roles ensures Includes.ImportRole(role) in imports {
      assert RoleImport(role) in imports;
    }
  }

  lemma SilentIffNoReason(files: Includes.FileTree, book: Includes.Path, task: Includes.Task)
    ensures Silent(files, book, task) <==> Includes.ParseTask(files, book, task, {}).reasons == []
  {
    Includes.TaskMatches(files, book, task, {}, {});
    var none: set<Includes.Path> := {};
    assert none + none == none;
    Includes.RelabelNothing(Includes.ExpandTask(files, book, task, {}).reasons);
  }

  lemma OneNode(files: Includes.FileTree, book: Includes.Path, task: Includes.Task)
    ensures var nodes := Includes.ParseTask(files, book, task, {}).nodes;
      if task.NotATask? then nodes == [] else |nodes| == 1 && nodes[0].confidence == Includes.ConfidenceOf(task)
  {
  }

  /** Previews the tasks of a play: whether all are direct, and whether none records a reason. */
  method PreviewSteps(files: Includes.FileTree, book: Includes.Path, steps: seq<Includes.Task>)
    returns (direct: bool, silent: bool)
    ensures direct <==> forall t :: t in steps ==> StepDirect(t)
    ensures silent <==> forall t :: t in steps ==> Silent(files, book, t)
  {
    direct, silent := true, true;
    for i := 0 to |steps|
      invariant direct <==> forall t :: t in steps[..i] ==> StepDirect(t)
      invariant silent <==> forall t :: t in steps[..i] ==> Silent(files, book, t)
    {
      var expander := new Includes.Expander(files);
      var nodes := expander.PreviewTask(book, steps[i]);
      SilentIffNoReason(files, book, steps[i]);
      OneNode(files, book, steps[i]);
      assert [] + Includes.ParseTask(files, book, steps[i], {}).reasons == Includes.ParseTask(files, book, steps[i], {}).reasons;
      assert steps[..i + 1] == steps[..i] + [steps[i]];
      assert forall t :: t in steps[..i + 1] <==> t in steps[..i] || t == steps[i];
      assert nodes == Includes.ParseTask(files, book, steps[i], {}).nodes;
      assert nodes == [] || nodes[0].confidence.Direct? <==> StepDirect(steps[i]);
      if nodes != [] && !nodes[0].confidence.Direct? {
        direct := false;
      }
      if expander.reasons != [] {
        silent := false;
      }
    }
    assert steps[..|steps|] == steps;
  }

  ghost predicate HitByAny(glob: Glob, plays: seq<Play>, hosts: seq<Host>, id: int) {
    exists p :: p in plays && InPlay(glob, p, hosts, id)
  }

  ghost predicate HitByNamed(glob: Glob, plays: seq<Play>, hosts: seq<Host>, id: int, name: string) {
    exists p :: p in plays && p.name == name && InPlay(glob, p, hosts, id)
  }

  ghost predicate TokenInAny(glob: Glob, plays: seq<Play>, hosts: seq<Host>, id: int, t: string) {
    exists p :: p in plays && TokenIn(PatternMatches(glob, p.pattern, hosts), id, t)
  }

  ghost predicate GroupInAny(glob: Glob, plays: seq<Play>, hosts: seq<Host>, id: int, g: string) {
    exists p :: p in plays && GroupIn(PatternMatches(glob, p.pattern, hosts), id, g)
  }

  ghost predicate AllDirect(files: Includes.FileTree, book: Includes.Path, plays: seq<Play>) {
    forall p :: p in plays ==> PlayDirect(files, book, p)
  }

  lemma OneMorePlay(glob: Glob, plays: seq<Play>, p: Play, hosts: seq<Host>)
    ensures forall id :: HitByAny(glob, plays + [p], hosts, id) <==> HitByAny(glob, plays, hosts, id) || InPlay(glob, p, hosts, id)
    ensures forall id, name :: HitByNamed(glob, plays + [p], hosts, id, name) <==>
      HitByNamed(glob, plays, hosts, id, name) || (p.name == name && InPlay(glob, p, hosts, id))
    ensures forall id, t :: TokenInAny(glob, plays + [p], hosts, id, t) <==>
      TokenInAny(glob, plays, hosts, id, t) || TokenIn(PatternMatches(glob, p.pattern, hosts), id, t)
    ensures forall id, g :: GroupInAny(glob, plays + [p], hosts, id, g) <==>
      GroupInAny(glob, plays, hosts, id, g) || GroupIn(PatternMatches(glob, p.pattern, hosts), id, g)
  {
    assert forall q :: q in plays + [p] <==> q in plays || q == p;
  }

  predicate TargetLe(a: Target, b: Target) { HostLe(a.host, b.host) }

  ghost predicate IsTarget(targets: map<int, Target>, t: Target) { exists id :: id in targets && targets[id] == t }

  /** The report's order: by host name, then id. */
  method SortTargets(targets: map<int, Target>) returns (ordered: seq<Target>)
    ensures |ordered| == |targets| && forall t :: t in ordered <==> IsTarget(targets, t)
    ensures forall i, j :: 0 <= i < j < |ordered| ==> ComesFirst(ordered[i].host, ordered[j].host)
  {
    var found: seq<Target> := [];
    var todo := targets.Keys;
    while todo != {}
      invariant todo <= targets.Keys && |found| + |todo| == |targets.Keys|
      invariant forall t :: t in found ==> IsTarget(targets, t)
      invariant forall id :: id in targets ==> id in todo || targets[id] in found
      decreases |todo|
    {
      SomeMember(todo);
      var id :| id in todo;
      found := found + [targets[id]];
      todo := todo - {id};
    }
    ordered := StableSort(found, TargetLe);
    TargetOrder();
    SortCorrect(found, TargetLe);
    SameElements(ordered, found);
    forall i, j | 0 <= i < j < |ordered| ensures ComesFirst(ordered[i].host, ordered[j].host) {
      HostLeIs(ordered[i].host, ordered[j].host);
    }
  }

  lemma TargetOrder()
    ensures TotalPreorder(TargetLe)
  {
    HostOrder();
  }

  lemma OneMoreDirect(files: Includes.FileTree, book: Includes.Path, plays: seq<Play>, p: Play)
    ensures AllDirect(files, book, plays + [p]) <==> AllDirect(files, book, plays) && PlayDirect(files, book, p)
  {
    assert forall q :: q in plays + [p] <==> q in plays || q == p;
  }

  ghost predicate UnknownFrom(plays: seq<Play>, i: nat) {
    i < |plays| && IsDynamic(plays[i].pattern) && forall j :: i <= j < |plays| ==> TasksDirect(plays[j])
  }

  /** Some play has a dynamic pattern, and neither it nor a later one has a task that is not direct. */
  ghost predicate EndsUnknown(plays: seq<Play>) { exists i :: UnknownFrom(plays, i) }

  lemma UnknownStep(plays: seq<Play>, p: Play, i: nat)
    ensures UnknownFrom(plays + [p], i) <==> TasksDirect(p) && (UnknownFrom(plays, i) || (i == |plays| && IsDynamic(p.pattern)))
  {
    var all := plays + [p];
    assert all[|plays|] == p && forall j :: 0 <= j < |plays| ==> all[j] == plays[j];
  }

  lemma OneMoreUnknown(plays: seq<Play>, p: Play)
    ensures EndsUnknown(plays + [p]) <==> TasksDirect(p) && (IsDynamic(p.pattern) || EndsUnknown(plays))
  {
    UnknownStep(plays, p, |plays|);
    if i :| UnknownFrom(plays, i) {
      UnknownStep(plays, p, i);
    }
    if i :| UnknownFrom(plays + [p], i) {
      UnknownStep(plays, p, i);
    }
  }

  /** One play: its matches are merged into the targets, its pattern, tasks and reasons into the confidence. */
  method AddPlay(glob: Glob, files: Includes.FileTree, book: Includes.Path, play: Play, hosts: seq<Host>,
                 targets0: map<int, Target>, confidence0: Includes.Confidence, reasons0: bool)
    returns (targets: map<int, Target>, confidence: Includes.Confidence, reasons: bool)
    requires DistinctIds(hosts)
    ensures AreHosts(targets0, hosts) ==> AreHosts(targets, hosts)
    ensures var matches := PatternMatches(glob, play.pattern, hosts);
      && (forall id :: id in targets <==> id in targets0 || InMatches(matches, id))
      && (forall id, p :: p in PlaysOf(targets, id) <==>
            p in PlaysOf(targets0, id) || (p == play.name && InMatches(matches, id)))
      && (forall id, t :: t in HitsOf(targets, id) <==> t in HitsOf(targets0, id) || TokenIn(matches, id, t))
      && (forall id, g :: g in GroupsOf(targets, id) <==> g in GroupsOf(targets0, id) || GroupIn(matches, id, g))
    ensures confidence.Direct? && !reasons <==> confidence0.Direct? && !reasons0 && PlayDirect(files, book, play)
    ensures confidence.Unknown? <==> TasksDirect(play) && (IsDynamic(play.pattern) || confidence0.Unknown?)
  {
    confidence, reasons := confidence0, reasons0;
    var matches, direct := MatchHosts(glob, play.pattern, hosts);
    if !direct {
      confidence, reasons := Includes.Unknown, true;
    }
    var tasksDirect, silent := PreviewSteps(files, book, Steps(play));
    if !silent {
      reasons := true;
    }
    if !tasksDirect {
      confidence := Includes.Dynamic;
    }
    StepsAre(files, book, play);
    MatchesComeFrom(glob, play.pattern, hosts);
    targets := AddMatches(targets0, matches, play.name, hosts);
  }

  /** The targets are the union over the plays, each with exactly the names of the plays that hit it, reported by name
      and id.  The overall confidence is unknown exactly when some pattern is dynamic and neither its play nor a later
      one has a task that is not direct; and direct exactly when every pattern and every top-level task is direct and
      no reason was recorded, neither by reading the playbook nor by expanding a role or an include. */
  method Summarise(glob: Glob, files: Includes.FileTree, book: Includes.Path, plays: seq<Play>, hosts: seq<Host>,
                   readReasons: bool)
    returns (targets: map<int, Target>, ordered: seq<Target>, confidence: Includes.Confidence)
    requires DistinctIds(hosts)
    ensures AreHosts(targets, hosts)
    ensures forall id :: id in targets <==> HitByAny(glob, plays, hosts, id)
    ensures forall id, name :: name in PlaysOf(targets, id) <==> HitByNamed(glob, plays, hosts, id, name)
    ensures forall id, t :: t in HitsOf(targets, id) <==> TokenInAny(glob, plays, hosts, id, t)
    ensures forall id, g :: g in GroupsOf(targets, id) <==> GroupInAny(glob, plays, hosts, id, g)
    ensures |ordered| == |targets| && (forall t :: t in ordered <==> IsTarget(targets, t))
    ensures forall i, j :: 0 <= i < j < |ordered| ==> ComesFirst(ordered[i].host, ordered[j].host)
    ensures confidence.Direct? <==> !readReasons && AllDirect(files, book, plays)
    ensures confidence.Unknown? <==> EndsUnknown(plays)
  {
    targets, confidence := map[], Includes.Direct;
    var reasons := readReasons;
    var i := 0;
    while i < |plays|
      invariant 0 <= i <= |plays| && AreHosts(targets, hosts)
      invariant forall id :: id in targets <==> HitByAny(glob, plays[..i], hosts, id)
      invariant forall id, name :: name in PlaysOf(targets, id) <==> HitByNamed(glob, plays[..i], hosts, id, name)
      invariant forall id, t :: t in HitsOf(targets, id) <==> TokenInAny(glob, plays[..i], hosts, id, t)
      invariant forall id, g :: g in GroupsOf(targets, id) <==> GroupInAny(glob, plays[..i], hosts, id, g)
      invariant confidence.Direct? && !reasons <==> !readReasons && AllDirect(files, book, plays[..i])
      invariant confidence.Unknown? <==> EndsUnknown(plays[..i])
    {
      var play := plays[i];
      assert plays[..i + 1] == plays[..i] + [play];
      OneMorePlay(glob, plays[..i], play, hosts);
      OneMoreDirect(files, book, plays[..i], play);
      OneMoreUnknown(plays[..i], play);
      targets, confidence, reasons := AddPlay(glob, files, book, play, hosts, targets, confidence, reasons);
      i := i + 1;
    }
    assert plays[..i] == plays;
    if reasons && confidence.Direct? {
      confidence := Includes.Dynamic;
    }
    ordered := SortTargets(targets);
  }
}
